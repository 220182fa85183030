// Walking a path through the tree, and printing a directory's own path (kernel/vfs.c).

module Resolve {
  import opened Bytes
  import opened Paths
  import opened Tree

  // ---- resolution ----------------------------------------------------------

  /** One component from node `n`. */
  function Enter(t: Forest, n: int, w: string): (r: Option<int>)
    requires Links(t) && In(t, n)
    ensures r.Some? ==> In(t, r.value)
  {
    if w == "." then Some(n)
    else if w == ".." then (assert LinkOk(t, n); Some(if t[n].parent >= 0 then t[n].parent else n))
    else
      var c := FindChild(t, n, w);
      if c < 0 then None else Some(c)
  }

  function Walk(t: Forest, n: int, p: string): (r: Option<int>)
    requires Links(t) && In(t, n)
    ensures r.Some? ==> In(t, r.value)
    decreases |p|
  {
    match NextComponent(p)
    case End => Some(n)
    case TooLong => None
    case Name(w, rest) =>
      match Enter(t, n, w)
      case None => None
      case Some(m) => Walk(t, m, rest)
  }

  /** `vfs_resolve_from`. */
  function ResolveFrom(t: Forest, cwd: int, p: string): (r: Option<int>)
    requires Links(t) && In(t, cwd)
    ensures r.Some? ==> In(t, r.value)
  {
    if p == "" then Some(cwd) else Walk(t, if p[0] == '/' then ROOT else cwd, p)
  }

  /** The loop, which consumes the path as it goes. */
  method ResolveLoop(t: Forest, cwd: int, path: string) returns (r: Option<int>)
    requires Links(t) && In(t, cwd)
    ensures r == ResolveFrom(t, cwd, path)
  {
    if path == "" {
      return Some(cwd);
    }
    var node, p := if path[0] == '/' then ROOT else cwd, path;
    while true
      invariant In(t, node) && Walk(t, node, p) == ResolveFrom(t, cwd, path)
      decreases |p|
    {
      var status := NextComponent(p);
      match status {
        case End => return Some(node);
        case TooLong => return None;
        case Name(component, rest) =>
          if component == "." {
          } else if component == ".." {
            assert LinkOk(t, node);
            if t[node].parent >= 0 {
              node := t[node].parent;
            }
          } else {
            var child := FindChildLoop(t, node, component);
            if child < 0 {
              return None;
            }
            node := child;
          }
          p := rest;
      }
    }
  }

  /** One turn of the loop, with the rest of the walk abstract. */
  lemma WalkIs(t: Forest, n: int, p: string)
    requires Links(t) && In(t, n)
    ensures var c := NextComponent(p);
            Walk(t, n, p) == if c == End then Some(n)
                             else if c == TooLong || Enter(t, n, c.name) == None then None
                             else Walk(t, Enter(t, n, c.name).value, c.rest)
  {
    hide NextComponent, Enter;
  }

  lemma NothingLeft()
    ensures NextComponent("") == End
  {
  }

  /** Resolving `p` and then a last name is resolving the two joined by a slash. */
  lemma {:induction false} WalkAppend(t: Forest, n: int, p: string, w: string)
    requires Links(t) && In(t, n) && '/' !in w && w != ""
    ensures Walk(t, n, p + "/" + w) == match Walk(t, n, p)
                                       case None => None
                                       case Some(m) => if |w| > NAME_MAX then None else Enter(t, m, w)
    decreases |p|
  {
    hide *;
    var x := "/" + w;
    assert p + "/" + w == p + x;
    NextAppend(p, x);
    NextOfName(w);
    NothingLeft();
    WalkIs(t, n, p);
    WalkIs(t, n, p + x);
    match NextComponent(p) {
      case End =>
        if |w| <= NAME_MAX && Enter(t, n, w).Some? {
          WalkIs(t, Enter(t, n, w).value, "");
        }
      case TooLong =>
      case Name(v, rest) =>
        if Enter(t, n, v).Some? {
          WalkAppend(t, Enter(t, n, v).value, rest, w);
          assert rest + "/" + w == rest + x;
        }
    }
  }

  /** A path that splits resolves to the child of that name in its resolved parent. */
  lemma SplitResolves(t: Forest, cwd: int, p: string)
    requires Links(t) && In(t, cwd) && LastSlash(p) >= 0 && SplitParent(p).Some?
    ensures var (par, w) := SplitParent(p).value;
            && par != "" && !Dots(w)
            && ResolveFrom(t, cwd, p) == match ResolveFrom(t, cwd, par)
                                         case None => None
                                         case Some(d) => Enter(t, d, w)
  {
    var i := LastSlash(p);
    var w := p[i + 1..];
    assert p == p[..i] + "/" + w;
    var start := if p[0] == '/' then ROOT else cwd;
    WalkAppend(t, start, p[..i], w);
    hide Links, Enter;
    if i == 0 {
      LeadingSlash(t, ROOT, "");
      assert "/" + "" == "/" && Walk(t, ROOT, p[..i]) == Some(ROOT);
    } else {
      assert p[..i][0] == p[0];
    }
  }

  /** Without a slash, a path of at most 31 characters is one step from the current directory; longer ones fail. */
  lemma PlainResolves(t: Forest, cwd: int, p: string)
    requires Links(t) && In(t, cwd) && '/' !in p && p != ""
    ensures ResolveFrom(t, cwd, p) == if |p| > NAME_MAX then None else Enter(t, cwd, p)
  {
    NextOfName(p);
    NothingLeft();
    assert p[0] in p;
    WalkIs(t, cwd, p);
    if |p| <= NAME_MAX && Enter(t, cwd, p).Some? {
      WalkIs(t, Enter(t, cwd, p).value, "");
    }
  }

  // ---- growth --------------------------------------------------------------

  lemma EnterStays(t: Forest, t': Forest, n: int, w: string)
    requires Ok(t) && Ok(t') && Extends(t, t') && In(t, n) && Enter(t, n, w).Some?
    ensures Enter(t', n, w) == Enter(t, n, w)
  {
    assert SameNode(t[n], t'[n]);
    if !Dots(w) {
      var c := FindChild(t, n, w);
      FindIs(t, n, w, c);
      FindIs(t', n, w, c);
      assert SameNode(t[c], t'[c]);
    }
  }

  /** What a path resolves to, it resolves to for good. */
  lemma {:induction false} WalkStays(t: Forest, t': Forest, n: int, p: string)
    requires Ok(t) && Ok(t') && Extends(t, t') && In(t, n) && Walk(t, n, p).Some?
    ensures Walk(t', n, p) == Walk(t, n, p)
    decreases |p|
  {
    match NextComponent(p)
    case Name(w, rest) =>
      EnterStays(t, t', n, w);
      WalkStays(t, t', Enter(t, n, w).value, rest);
    case _ =>
  }

  lemma ResolveStays(t: Forest, t': Forest, cwd: int, p: string)
    requires Ok(t) && Ok(t') && Extends(t, t') && In(t, cwd) && ResolveFrom(t, cwd, p).Some?
    ensures ResolveFrom(t', cwd, p) == ResolveFrom(t, cwd, p)
  {
    if p != "" {
      WalkStays(t, t', if p[0] == '/' then ROOT else cwd, p);
    }
  }

  // ---- printing ------------------------------------------------------------

  /** The names from the root down to `n`. */
  function Chain(t: Forest, n: int): (r: seq<string>)
    requires Links(t) && In(t, n)
    decreases n
  {
    if n == ROOT then []
    else
      assert LinkOk(t, n);
      Chain(t, t[n].parent) + [t[n].name]
  }

  /** A directory keeps its names as the tree grows. */
  lemma {:induction false} ChainStays(t: Forest, t': Forest, n: int)
    requires Links(t) && Links(t') && Extends(t, t') && In(t, n)
    ensures Chain(t', n) == Chain(t, n)
    decreases n
  {
    if n != ROOT {
      assert LinkOk(t, n) && SameNode(t[n], t'[n]);
      ChainStays(t, t', t[n].parent);
    }
  }

  /** The last 16 of them: the pointers the printer collects. */
  function Parts(t: Forest, n: int): (r: seq<string>)
    requires Links(t) && In(t, n)
  {
    var c := Chain(t, n);
    if |c| <= MAX_PARTS then c else c[|c| - MAX_PARTS..]
  }

  /** What the printing loop appends when `at` characters are out: it stops at the first name that does not fit. */
  function Print(at: nat, parts: seq<string>, size: nat): (r: string)
    decreases |parts|
  {
    if parts == [] || at + |parts[0]| + 1 > size then ""
    else if |parts| == 1 then parts[0]
    else parts[0] + "/" + Print(at + |parts[0]| + 1, parts[1..], size)
  }

  /** `vfs_get_cwd_path` into a buffer of `size` characters. */
  function CwdPath(t: Forest, n: int, size: nat): (r: string)
    requires Links(t) && In(t, n)
  {
    var lead := if size > 1 then "/" else "";
    if n == ROOT then lead else lead + Print(|lead|, Parts(t, n), size)
  }

  lemma PrintStays(t: Forest, t': Forest, n: int, size: nat)
    requires Links(t) && Links(t') && Extends(t, t') && In(t, n)
    ensures CwdPath(t', n, size) == CwdPath(t, n, size)
  {
    ChainStays(t, t', n);
  }

  /** The whole path, whatever its length. */
  function FullPath(parts: seq<string>): (r: string) {
    if parts == [] then "/"
    else if |parts| == 1 then "/" + parts[0]
    else FullPath(parts[..|parts| - 1]) + "/" + parts[|parts| - 1]
  }

  function Span(parts: seq<string>): nat {
    if parts == [] then 0 else |parts[0]| + 1 + Span(parts[1..])
  }

  /** How many names the loop gets out. */
  function Out(at: nat, parts: seq<string>, size: nat): (k: nat)
    ensures k <= |parts|
    ensures k == |parts| <==> parts == [] || at + Span(parts) <= size
    decreases |parts|
  {
    if parts == [] || at + |parts[0]| + 1 > size then 0 else 1 + Out(at + |parts[0]| + 1, parts[1..], size)
  }

  predicate AllNames(parts: seq<string>) {
    forall k :: 0 <= k < |parts| ==> IsName(parts[k]) && !Dots(parts[k])
  }

  /** Down from `n` by names alone. */
  function Descend(t: Forest, n: int, parts: seq<string>): (r: Option<int>)
    requires Links(t) && In(t, n)
    ensures r.Some? ==> In(t, r.value)
    decreases |parts|
  {
    if parts == [] then Some(n)
    else
      var c := FindChild(t, n, parts[0]);
      if c < 0 then None else Descend(t, c, parts[1..])
  }

  lemma PrintStep(at: nat, parts: seq<string>, size: nat)
    requires parts != []
    ensures var w, k := parts[0], Out(at, parts, size);
            if at + |w| + 1 > size then k == 0 && Print(at, parts, size) == ""
            else
              && k == 1 + Out(at + |w| + 1, parts[1..], size)
              && Print(at, parts, size)
                 == if |parts| == 1 then w else w + "/" + Print(at + |w| + 1, parts[1..], size)
  {
  }

  lemma DescendStep(t: Forest, n: int, parts: seq<string>, k: nat)
    requires Links(t) && In(t, n) && 0 < k <= |parts|
    ensures var c := FindChild(t, n, parts[0]);
            Descend(t, n, parts[..k]) == if c < 0 then None else Descend(t, c, parts[1..][..k - 1])
  {
    assert parts[..k][1..] == parts[1..][..k - 1];
    hide FindChild, Links;
  }

  lemma NothingPrinted(t: Forest, n: int, at: nat, parts: seq<string>, size: nat)
    requires Links(t) && In(t, n) && (parts == [] || at + |parts[0]| + 1 > size)
    ensures Walk(t, n, Print(at, parts, size)) == Descend(t, n, parts[..Out(at, parts, size)])
  {
    NothingLeft();
    WalkIs(t, n, "");
    hide FindChild, Links, NextComponent, Walk;
  }

  lemma NamesSplit(parts: seq<string>)
    requires AllNames(parts) && parts != []
    ensures IsName(parts[0]) && !Dots(parts[0]) && AllNames(parts[1..])
  {
  }

  /** Resolving what was printed descends by the names that got out. */
  lemma {:induction false} WalkPrinted(t: Forest, n: int, at: nat, parts: seq<string>, size: nat)
    requires Links(t) && In(t, n) && AllNames(parts)
    ensures Walk(t, n, Print(at, parts, size)) == Descend(t, n, parts[..Out(at, parts, size)])
    decreases |parts|
  {
    hide *;
    if parts == [] || at + |parts[0]| + 1 > size {
      NothingPrinted(t, n, at, parts, size);
    } else {
      var w, rest, k := parts[0], parts[1..], Out(at, parts, size);
      NamesSplit(parts);
      PrintStep(at, parts, size);
      DescendStep(t, n, parts, k);
      if |parts| == 1 {
        assert parts[..k] == [w];
        WalkOne(t, n, w);
      } else {
        var at', c := at + |w| + 1, FindChild(t, n, w);
        var q := Print(at', rest, size);
        WalkName(t, n, w, q);
        EnterName(t, n, w);
        if c >= 0 {
          LeadingSlash(t, c, q);
          WalkPrinted(t, c, at', rest, size);
        }
      }
    }
  }

  lemma WalkName(t: Forest, n: int, w: string, q: string)
    requires Links(t) && In(t, n) && IsName(w)
    ensures var m := Enter(t, n, w); Walk(t, n, w + "/" + q) == if m == None then None else Walk(t, m.value, "/" + q)
  {
    hide Walk, NextComponent, Enter, Links, SkipSlashes, Word;
    var x := "/" + q;
    NextOfName(w);
    NextAppend(w, x);
    assert w + "/" + q == w + x && "" + x == x;
    WalkIs(t, n, w + x);
  }

  lemma EnterName(t: Forest, n: int, w: string)
    requires Links(t) && In(t, n) && IsName(w) && !Dots(w)
    ensures '/' !in w && w != "" && |w| <= NAME_MAX
    ensures var c := FindChild(t, n, w); Enter(t, n, w) == if c < 0 then None else Some(c)
  {
  }

  lemma WalkOne(t: Forest, n: int, w: string)
    requires Links(t) && In(t, n) && IsName(w) && !Dots(w)
    ensures Walk(t, n, w) == Descend(t, n, [w])
  {
    EnterName(t, n, w);
    NextOfName(w);
    NothingLeft();
    WalkIs(t, n, w);
    if FindChild(t, n, w) >= 0 {
      WalkIs(t, FindChild(t, n, w), "");
    }
    hide Walk, NextComponent, Links, FindChild;
    assert [w][1..] == [];
  }

  lemma LeadingSlash(t: Forest, n: int, p: string)
    requires Links(t) && In(t, n)
    ensures Walk(t, n, "/" + p) == Walk(t, n, p)
  {
    assert ("/" + p)[1..] == p;
    assert SkipSlashes("/" + p) == SkipSlashes(p);
  }

  lemma {:induction false} DescendAppend(t: Forest, n: int, a: seq<string>, b: seq<string>)
    requires Links(t) && In(t, n)
    ensures Descend(t, n, a + b) == match Descend(t, n, a)
                                    case None => None
                                    case Some(m) => Descend(t, m, b)
    decreases |a|
  {
    if a == [] {
      assert a + b == b;
    } else {
      assert (a + b)[1..] == a[1..] + b;
      var c := FindChild(t, n, a[0]);
      if c >= 0 {
        DescendAppend(t, c, a[1..], b);
      }
    }
  }

  /** The whole chain leads back down to the node. */
  lemma {:induction false} ChainLeads(t: Forest, n: int)
    requires Ok(t) && In(t, n)
    ensures Descend(t, ROOT, Chain(t, n)) == Some(n)
    decreases n
  {
    if n != ROOT {
      assert LinkOk(t, n);
      var p, w := t[n].parent, t[n].name;
      ChainLeads(t, p);
      DescendAppend(t, ROOT, Chain(t, p), [w]);
      FindIs(t, p, w, n);
      assert Descend(t, p, [w]) == Descend(t, n, []);
    }
  }

  predicate NoDots(parts: seq<string>) {
    forall k :: 0 <= k < |parts| ==> !Dots(parts[k])
  }

  predicate Names(parts: seq<string>) {
    forall k :: 0 <= k < |parts| ==> IsName(parts[k])
  }

  /** Every name of a chain is a name; nothing keeps it from being "." or "..". */
  lemma {:induction false} ChainNames(t: Forest, n: int)
    requires Links(t) && In(t, n)
    ensures Names(Chain(t, n)) && Names(Parts(t, n))
    decreases n
  {
    if n != ROOT {
      assert LinkOk(t, n);
      ChainNames(t, t[n].parent);
    }
  }

  // ---- how deep a printed path can lead ------------------------------------

  /** How many of the names printed are neither "." nor "..": each leads down by one, the others do not. */
  function Descents(at: nat, parts: seq<string>, size: nat): (k: nat)
    ensures k <= Out(at, parts, size)
    ensures k == |parts| ==> NoDots(parts)
    decreases |parts|
  {
    if parts == [] || at + |parts[0]| + 1 > size then 0
    else
      var k := Descents(at + |parts[0]| + 1, parts[1..], size);
      assert k == |parts| - 1 ==> forall j :: 1 <= j < |parts| ==> parts[j] == parts[1..][j - 1];
      if Dots(parts[0]) then k else k + 1
  }

  /** One component leads at most one level down, and "." and ".." not at all. */
  lemma EnterDepth(t: Forest, n: int, w: string)
    requires Links(t) && In(t, n) && Enter(t, n, w).Some?
    ensures |Chain(t, Enter(t, n, w).value)| <= |Chain(t, n)| + (if Dots(w) then 0 else 1)
  {
    assert LinkOk(t, n);
    if !Dots(w) {
      FoundIsChild(t, n, w);
    }
  }

  lemma DepthStep(t: Forest, n: int, w: string, q: string)
    requires Links(t) && In(t, n) && IsName(w)
    ensures var m := Enter(t, n, w);
            && Walk(t, n, w) == m
            && Walk(t, n, w + "/" + q) == (if m == None then None else Walk(t, m.value, q))
            && (m.Some? ==> |Chain(t, m.value)| <= |Chain(t, n)| + (if Dots(w) then 0 else 1))
  {
    var m := Enter(t, n, w);
    WalkName(t, n, w, q);
    NextOfName(w);
    NothingLeft();
    WalkIs(t, n, w);
    if m.Some? {
      LeadingSlash(t, m.value, q);
      EnterDepth(t, n, w);
      WalkIs(t, m.value, "");
    }
    hide Walk, Enter, Links, Chain, NextComponent;
  }

  lemma DescentsStep(at: nat, parts: seq<string>, size: nat)
    ensures Descents(at, parts, size)
            == if parts == [] || at + |parts[0]| + 1 > size then 0
               else Descents(at + |parts[0]| + 1, parts[1..], size) + (if Dots(parts[0]) then 0 else 1)
    ensures parts == [] ==> Print(at, parts, size) == ""
  {
  }

  lemma FirstName(parts: seq<string>)
    requires Names(parts)
    ensures parts != [] ==> IsName(parts[0]) && Names(parts[1..])
  {
  }

  /** The walk along a printed path ends no deeper than the names in it that lead down. */
  lemma {:induction false} WalkDepth(t: Forest, n: int, at: nat, parts: seq<string>, size: nat)
    requires Links(t) && In(t, n) && Names(parts)
    ensures var r := Walk(t, n, Print(at, parts, size));
            r.Some? ==> |Chain(t, r.value)| <= |Chain(t, n)| + Descents(at, parts, size)
    decreases |parts|
  {
    hide *;
    FirstName(parts);
    DescentsStep(at, parts, size);
    NothingLeft();
    WalkIs(t, n, "");
    if parts != [] {
      PrintStep(at, parts, size);
      if at + |parts[0]| + 1 <= size {
        var at', m := at + |parts[0]| + 1, Enter(t, n, parts[0]);
        DepthStep(t, n, parts[0], Print(at', parts[1..], size));
        if m.Some? {
          WalkDepth(t, m.value, at', parts[1..], size);
        }
      }
    }
  }

  // ---- printing and resolving ----------------------------------------------

  /** Down the whole chain, if all of it is printed and it names no "." or "..". */
  lemma WalkChain(t: Forest, n: int, size: nat)
    requires Ok(t) && In(t, n) && n != ROOT && |Chain(t, n)| <= MAX_PARTS && NoDots(Chain(t, n))
    requires Out(1, Chain(t, n), size) == |Chain(t, n)|
    ensures Walk(t, ROOT, Print(1, Chain(t, n), size)) == Some(n)
  {
    var chain := Chain(t, n);
    ChainNames(t, n);
    assert AllNames(chain);
    ChainLeads(t, n);
    assert chain[..|chain|] == chain;
    hide Walk, Print, Chain, Descend, Out;
    WalkPrinted(t, ROOT, 1, chain, size);
  }

  /**
   * The printed path of a directory resolves to that directory, from anywhere, exactly when it is at most 16 deep,
   * its path and terminator fit the buffer, and no directory on it is called "." or "..".
   */
  lemma PrintThenResolve(t: Forest, n: int, cwd: int, size: nat)
    requires Ok(t) && In(t, n) && In(t, cwd) && size >= 2
    ensures ResolveFrom(t, cwd, CwdPath(t, n, size)) == Some(n)
            <==> |Chain(t, n)| <= MAX_PARTS && |FullPath(Chain(t, n))| < size && NoDots(Chain(t, n))
  {
    var chain, parts := Chain(t, n), Parts(t, n);
    ChainNames(t, n);
    FullPathLength(chain);
    if n == ROOT {
      assert CwdPath(t, n, size) == "/" + "";
      LeadingSlash(t, ROOT, "");
      NothingLeft();
      WalkIs(t, ROOT, "");
    } else {
      assert LinkOk(t, n) && |chain| > 0;
      var q := Print(1, parts, size);
      assert CwdPath(t, n, size) == "/" + q && ResolveFrom(t, cwd, "/" + q) == Walk(t, ROOT, "/" + q);
      LeadingSlash(t, ROOT, q);
      WalkDepth(t, ROOT, 1, parts, size);
      assert Chain(t, ROOT) == [];
      hide Print, Walk, Descend, Out, Span, FullPath, CwdPath, ResolveFrom;
      if |chain| <= MAX_PARTS && Out(1, parts, size) == |parts| && NoDots(chain) {
        WalkChain(t, n, size);
      }
    }
  }

  /**
   * What is written never exceeds the buffer; it leaves room for the terminator unless a proper part of the names,
   * slashes included, fills the buffer to the last character.
   */
  lemma TerminatorFits(t: Forest, n: int, size: nat)
    requires Ok(t) && In(t, n) && size >= 2
    ensures |CwdPath(t, n, size)| <= size
    ensures |CwdPath(t, n, size)| == size
            <==> n != ROOT && exists k :: 0 < k < |Parts(t, n)| && 1 + Span(Parts(t, n)[..k]) == size
  {
    if n != ROOT {
      PrintLength(1, Parts(t, n), size);
    }
  }

  lemma {:induction false} PrintLength(at: nat, parts: seq<string>, size: nat)
    requires at < size
    ensures at + |Print(at, parts, size)| <= size
    ensures at + |Print(at, parts, size)| == size
            <==> exists k :: 0 < k < |parts| && at + Span(parts[..k]) == size
    decreases |parts|
  {
    forall k | 0 < k < |parts| ensures Span(parts[..k]) == |parts[0]| + 1 + Span(parts[1..][..k - 1]) {
      assert parts[..k][1..] == parts[1..][..k - 1];
    }
    if parts != [] && |parts| > 1 && at + |parts[0]| + 1 <= size {
      var at', rest := at + |parts[0]| + 1, parts[1..];
      if at' < size {
        PrintLength(at', rest, size);
        if k :| 0 < k < |rest| && at' + Span(rest[..k]) == size {
          assert at + Span(parts[..k + 1]) == size;
        }
        if k :| 0 < k < |parts| && at + Span(parts[..k]) == size {
          assert k > 1 && at' + Span(rest[..k - 1]) == size;
        }
      } else {
        assert Print(at', rest, size) == "";
        assert at + Span(parts[..1]) == size;
      }
    }
  }

  lemma {:induction false} FullPathLength(parts: seq<string>)
    ensures |FullPath(parts)| == if parts == [] then 1 else Span(parts)
    decreases |parts|
  {
    if |parts| > 1 {
      FullPathLength(parts[..|parts| - 1]);
      SpanAppend(parts[..|parts| - 1], parts[|parts| - 1]);
      assert parts == parts[..|parts| - 1] + [parts[|parts| - 1]];
    }
  }

  lemma {:induction false} SpanAppend(a: seq<string>, w: string)
    ensures Span(a + [w]) == Span(a) + |w| + 1
  {
    if a != [] {
      assert (a + [w])[1..] == a[1..] + [w];
      SpanAppend(a[1..], w);
    }
  }

  /** Then the text printed is the whole path. */
  lemma PrintsFullPath(t: Forest, n: int, size: nat)
    requires Links(t) && In(t, n) && size >= 2 && |Chain(t, n)| <= MAX_PARTS && |FullPath(Chain(t, n))| < size
    ensures CwdPath(t, n, size) == FullPath(Chain(t, n))
  {
    FullPathLength(Chain(t, n));
    if n != ROOT {
      assert LinkOk(t, n);
      PrintAll(1, Chain(t, n), size);
    }
  }

  lemma {:induction false} PrintAll(at: nat, parts: seq<string>, size: nat)
    requires parts != [] && at + Span(parts) <= size
    ensures "/" + Print(at, parts, size) == FullPath(parts)
    decreases |parts|
  {
    if |parts| > 1 {
      PrintAll(at + |parts[0]| + 1, parts[1..], size);
      FullPathCons(parts);
    }
  }

  lemma {:induction false} FullPathCons(parts: seq<string>)
    requires |parts| > 1
    ensures FullPath(parts) == "/" + parts[0] + FullPath(parts[1..])
    decreases |parts|
  {
    var last := |parts| - 1;
    assert parts[1..][|parts[1..]| - 1] == parts[last] && parts[..last][0] == parts[0];
    assert parts[1..][..last - 1] == parts[..last][1..];
    if |parts| > 2 {
      FullPathCons(parts[..last]);
    }
  }
}
