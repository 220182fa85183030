// Path strings: components, the parent/name split and joining (kernel/vfs.c).

module Paths {
  import opened Bytes

  const NAME_MAX := 31
  const PATH_MAX := 128

  /** A file name: one component. */
  predicate IsName(w: string) {
    0 < |w| <= NAME_MAX && '/' !in w
  }

  predicate Dots(w: string) {
    w == "." || w == ".."
  }

  function SkipSlashes(p: string): (r: string)
    ensures |r| <= |p| && (r != "" ==> r[0] != '/')
  {
    if p != "" && p[0] == '/' then SkipSlashes(p[1..]) else p
  }

  /** The characters up to the next slash. */
  function Word(p: string): (w: string)
    ensures w <= p && '/' !in w && (|w| < |p| ==> p[|w|] == '/')
  {
    if p == "" || p[0] == '/' then "" else [p[0]] + Word(p[1..])
  }

  datatype Component = End | TooLong | Name(name: string, rest: string)

  /** `vfs_next_component` with a buffer of 32 characters. */
  function NextComponent(p: string): (r: Component)
    ensures r.Name? ==> IsName(r.name) && |r.rest| < |p| && (r.rest != "" ==> r.rest[0] == '/')
  {
    var q := SkipSlashes(p);
    if q == "" then End
    else
      var w := Word(q);
      if |w| > NAME_MAX then TooLong else Name(w, q[|w|..])
  }

  /** What follows a slash does not change what comes before it. */
  lemma {:induction false} SkipAppend(p: string, x: string)
    ensures SkipSlashes(p + x) == if SkipSlashes(p) == "" then SkipSlashes(x) else SkipSlashes(p) + x
  {
    if p == "" {
      assert p + x == x;
    } else if p[0] == '/' {
      assert (p + x)[1..] == p[1..] + x;
      SkipAppend(p[1..], x);
    }
  }

  lemma {:induction false} WordAppend(p: string, x: string)
    requires x == "" || x[0] == '/'
    ensures Word(p + x) == Word(p)
  {
    if p == "" {
      assert p + x == x;
    } else if p[0] != '/' {
      assert (p + x)[1..] == p[1..] + x;
      WordAppend(p[1..], x);
    }
  }

  lemma {:induction false} WordOfName(w: string)
    requires '/' !in w
    ensures Word(w) == w
  {
    if w != "" {
      assert '/' !in w[1..];
      WordOfName(w[1..]);
    }
  }

  lemma NextAppend(p: string, x: string)
    requires x == "" || x[0] == '/'
    ensures NextComponent(p + x) == match NextComponent(p)
                                    case End => NextComponent(x)
                                    case TooLong => TooLong
                                    case Name(w, rest) => Name(w, rest + x)
  {
    SkipAppend(p, x);
    var q := SkipSlashes(p);
    if q != "" {
      WordAppend(q, x);
      assert SkipSlashes(p + x) == q + x;
      assert (q + x)[|Word(q)|..] == q[|Word(q)|..] + x;
    }
  }

  /** A name, alone or after a slash, is one component. */
  lemma NextOfName(w: string)
    requires '/' !in w && w != ""
    ensures NextComponent(w) == NextComponent("/" + w) == if |w| > NAME_MAX then TooLong else Name(w, "")
  {
    assert ("/" + w)[1..] == w;
    WordOfName(w);
  }

  // ---- splitting off the last name -----------------------------------------

  /** The index of the last slash, or -1. */
  function LastSlash(p: string): (r: int)
    ensures -1 <= r < |p|
    ensures r >= 0 ==> p[r] == '/' && '/' !in p[r + 1..]
    ensures r < 0 <==> '/' !in p
  {
    if p == "" then -1
    else if p[|p| - 1] == '/' then |p| - 1
    else
      var r := LastSlash(p[..|p| - 1]);
      assert p == p[..|p| - 1] + [p[|p| - 1]];
      assert r >= 0 ==> p[r + 1..] == p[..|p| - 1][r + 1..] + [p[|p| - 1]];
      r
  }

  function Truncate(s: string, n: nat): (r: string)
    ensures r <= s && |r| <= n && (|s| <= n ==> r == s)
  {
    if |s| <= n then s else s[..n]
  }

  /** What follows the last slash is a name a node may get. */
  predicate LastName(p: string)
    requires '/' in p
  {
    var name := p[LastSlash(p) + 1..];
    IsName(name) && !Dots(name)
  }

  /** `vfs_split_parent` with buffers of 128 and 32 characters: the parent's path and the last name. */
  function SplitParent(p: string): (r: Option<(string, string)>)
    ensures r.Some? ==> IsName(r.value.1)
    ensures r.Some? && '/' !in p ==> r.value.0 == "" && r.value.1 <= p && (|p| <= NAME_MAX ==> r.value.1 == p)
    ensures r.Some? && '/' in p ==>
              var (parent, name) := r.value;
              !Dots(name) && parent != "" && (p == parent + "/" + name || (parent == "/" && p == "/" + name))
    ensures r == None <==> p == "" || ('/' in p && (LastSlash(p) >= PATH_MAX || !LastName(p)))
  {
    var i := LastSlash(p);
    if p == "" then None
    else if i < 0 then Some(("", Truncate(p, NAME_MAX)))
    else if i + 1 > PATH_MAX then None
    else
      var name := p[i + 1..];
      if |name| + 1 > NAME_MAX + 1 || name == "" || Dots(name) then None
      else Some((if i == 0 then "/" else p[..i], name))
  }

  // ---- joining -------------------------------------------------------------

  /** `vfs_path_join` into a buffer of `size` characters. */
  function Join(base: string, rel: string, size: nat): (r: Option<string>)
  {
    var b := if base != "" && base[|base| - 1] != '/' then base + "/" else base;
    if |b + rel| < size then Some(b + rel) else None
  }

  /** The copy loop: as much of `s` as leaves room for a terminator. */
  method CopyText(out: array<char>, at: nat, s: string) returns (i: nat)
    requires at < out.Length
    modifies out
    ensures i == at + (if |s| < out.Length - at then |s| else out.Length - at - 1)
    ensures out[..at] == old(out[..at]) && out[at..i] == s[..i - at]
  {
    var j := 0;
    i := at;
    while j < |s| && i + 1 < out.Length
      invariant j <= |s| && i < out.Length && i == at + j
      invariant out[..at] == old(out[..at]) && out[at..i] == s[..j]
    {
      out[i] := s[j];
      assert out[at..i + 1] == out[at..i] + [s[j]];
      i, j := i + 1, j + 1;
    }
  }

  /** The joining itself; -1 is the failure return, `n` the length written before the terminator. */
  method PathJoin(out: array<char>, base: string, rel: string) returns (n: int)
    requires out.Length > 0
    modifies out
    ensures n >= 0 <==> Join(base, rel, out.Length).Some?
    ensures n >= 0 ==> n < out.Length && out[..n] == Join(base, rel, out.Length).value && out[n] == '\0'
  {
    var i := CopyText(out, 0, base);
    if i < |base| {
      return -1;
    }
    assert out[..i] == base;
    if i > 0 && out[i - 1] != '/' {
      if i + 1 >= out.Length {
        return -1;
      }
      out[i] := '/';
      i := i + 1;
    }
    ghost var b := out[..i];
    assert b == if base != "" && base[|base| - 1] != '/' then base + "/" else base;
    var k := CopyText(out, i, rel);
    if k - i < |rel| {
      return -1;
    }
    assert out[..k] == b + rel;
    out[k] := '\0';
    n := k;
  }
}
