// The file system as the kernel keeps it: nodes and heap updated in place (kernel/vfs.c).

module Volume {
  import opened Bytes
  import opened Paths
  import opened Heap
  import opened Tree
  import opened Resolve
  import opened Vfs

  /** The pointer walk that collects at most 16 names, nearest first. */
  method CollectParts(t: Forest, cwd: int) returns (parts: seq<string>)
    requires Links(t) && In(t, cwd)
    ensures |parts| == |Parts(t, cwd)| && forall k :: 0 <= k < |parts| ==> parts[k] == Parts(t, cwd)[|parts| - 1 - k]
  {
    parts := [];
    var node := cwd;
    ghost var chain := Chain(t, cwd);
    while node != ROOT && |parts| < MAX_PARTS
      invariant In(t, node) && |parts| <= MAX_PARTS && |parts| + |Chain(t, node)| == |chain|
      invariant Chain(t, node) == chain[..|Chain(t, node)|]
      invariant forall k :: 0 <= k < |parts| ==> parts[k] == chain[|chain| - 1 - k]
      decreases node
    {
      assert LinkOk(t, node);
      assert Chain(t, node) == Chain(t, t[node].parent) + [t[node].name];
      parts := parts + [t[node].name];
      node := t[node].parent;
    }
  }

  /** The printing loop, over names collected nearest first. */
  method EmitParts(buf: array<char>, at: nat, parts: seq<string>, size: nat, ghost names: seq<string>) returns (n: nat)
    requires at <= size < buf.Length
    requires |parts| == |names| && forall k :: 0 <= k < |parts| ==> parts[k] == names[|parts| - 1 - k]
    modifies buf
    ensures at <= n <= size && buf[..n] == old(buf[..at]) + Print(at, names, size)
    ensures buf[size..] == old(buf[size..])
  {
    n := at;
    var i := |parts|;
    ghost var rest := names;
    while i > 0 && n + |parts[i - 1]| + 1 <= size
      invariant 0 <= i <= |parts| && at <= n <= size
      invariant |parts| == |names| && rest == names[|parts| - i..] && |rest| == i
      invariant buf[..n] + Print(n, rest, size) == old(buf[..at]) + Print(at, names, size)
      invariant buf[size..] == old(buf[size..])
      decreases i
    {
      var w := parts[i - 1];
      assert rest[0] == names[|parts| - i] == w;
      n := EmitName(buf, n, w, i > 1, size, rest);
      i := i - 1;
      rest := rest[1..];
    }
    assert i > 0 ==> rest[0] == parts[i - 1];
    assert Print(n, rest, size) == "";
  }

  /** One turn of it: a name and, unless it is the last, a slash. */
  method EmitName(buf: array<char>, at: nat, w: string, more: bool, size: nat, ghost rest: seq<string>)
    returns (n: nat)
    requires at + |w| + 1 <= size < buf.Length && rest != [] && rest[0] == w && (more <==> |rest| > 1)
    modifies buf
    ensures n == at + |w| + (if more then 1 else 0)
    ensures buf[..n] + Print(n, rest[1..], size) == old(buf[..at]) + Print(at, rest, size)
    ensures buf[size..] == old(buf[size..])
  {
    ghost var was := buf[..at];
    CopyName(buf, at, w);
    n := at + |w|;
    assert buf[..n] == was + w;
    if more {
      buf[n] := '/';
      n := n + 1;
      assert buf[..n] == was + (w + "/");
      var tail := Print(n, rest[1..], size);
      assert was + (w + "/") + tail == was + (w + "/" + tail);
    } else {
      assert Print(n, rest[1..], size) == "";
    }
  }

  /**
   * `vfs_get_cwd_path`. The buffer is modelled with the character after it, which the terminator reaches when the
   * text fills the buffer.
   */
  method GetCwdPath(t: Forest, cwd: int, buf: array<char>, size: nat) returns (n: nat)
    requires Ok(t) && In(t, cwd) && 2 <= size < buf.Length
    modifies buf
    ensures n <= size && buf[..n] == CwdPath(t, cwd, size) && buf[n] == '\0'
    ensures buf[size + 1..] == old(buf[size + 1..]) && (n < size ==> buf[size] == old(buf[size]))
  {
    buf[0] := '/';
    n := 1;
    assert buf[..1] == "/" && buf[size..] == old(buf[size..]);
    if cwd != ROOT {
      var parts := CollectParts(t, cwd);
      n := EmitParts(buf, 1, parts, size, Parts(t, cwd));
    }
    ghost var text, after := buf[..n], buf[size..];
    buf[n] := '\0';
    assert buf[..n] == text && buf[size + 1..] == after[1..] && after == old(buf[size..]);
    assert old(buf[size + 1..]) == old(buf[size..])[1..];
  }

  method CopyName(buf: array<char>, at: nat, w: string)
    requires at + |w| <= buf.Length
    modifies buf
    ensures buf[..at] == old(buf[..at]) && buf[at..at + |w|] == w && buf[at + |w|..] == old(buf[at + |w|..])
  {
    var j := 0;
    while j < |w|
      invariant j <= |w|
      invariant buf[..at] == old(buf[..at]) && buf[at..at + j] == w[..j]
      invariant buf[at + |w|..] == old(buf[at + |w|..])
    {
      buf[at + j] := w[j];
      assert buf[at..at + j + 1] == buf[at..at + j] + [w[j]];
      j := j + 1;
    }
  }

  class Store {
    var nodes: Forest
    const heap: Allocator

    function State(): Fs
      reads this, heap
    {
      Fs(nodes, heap.State())
    }

    /** A file system of the root alone, if its node can be allocated. */
    constructor (h: Allocator)
      requires h.State().Ok()
      ensures heap == h && FsOk(State()) && Clean(nodes) && nodes == [Node("", true, NIL, NIL, NIL, 0, 0)]
    {
      nodes := [Node("", true, NIL, NIL, NIL, 0, 0)];
      heap := h;
      new;
      assert LinkOk(nodes, ROOT);
    }

    method MakeNode(w: string, dir: bool, parent: int) returns (made: bool)
      requires FsOk(State()) && In(nodes, parent)
      modifies this, heap
      ensures (State(), made) == AllocNode(old(State()), w, dir, parent)
    {
      var p := heap.Kmalloc(NODE_SIZE);
      if p == None {
        return false;
      }
      var newest := |nodes|;
      nodes := nodes + [Node(w, dir, parent, NIL, nodes[parent].first, 0, 0)];
      nodes := nodes[parent := nodes[parent].(first := newest)];
      assert nodes == Grown(old(nodes), w, dir, parent);
      made := true;
    }

    /** The split of a path, its parent resolved. */
    method FindTarget(cwd: int, path: string) returns (at: Option<(int, string)>)
      requires Links(nodes) && In(nodes, cwd)
      ensures at == Target(nodes, cwd, path)
    {
      var split := SplitParent(path);
      if split == None {
        return None;
      }
      var parent := ResolveLoop(nodes, cwd, split.value.0);
      at := if parent == None || !nodes[parent.value].dir then None else Some((parent.value, split.value.1));
    }

    method MakeDir(cwd: int, path: string) returns (done: bool)
      requires FsOk(State()) && In(nodes, cwd)
      modifies this, heap
      ensures (State(), done) == Vfs.MakeDir(old(State()), cwd, path) && FsOk(State())
    {
      MakeDirOk(State(), cwd, path);
      var aliased := Aliased(nodes, cwd, path);
      var at := FindTarget(cwd, path);
      if aliased || at == None {
        return false;
      }
      var there := FindChildLoop(nodes, at.value.0, at.value.1);
      if there >= 0 {
        return false;
      }
      done := MakeNode(at.value.1, true, at.value.0);
    }

    method Touch(cwd: int, path: string) returns (done: bool)
      requires FsOk(State()) && In(nodes, cwd)
      modifies this, heap
      ensures (State(), done) == Vfs.Touch(old(State()), cwd, path) && FsOk(State())
    {
      TouchOk(State(), cwd, path);
      var aliased := Aliased(nodes, cwd, path);
      var at := FindTarget(cwd, path);
      if aliased || at == None {
        return false;
      }
      var node := FindChildLoop(nodes, at.value.0, at.value.1);
      if node >= 0 {
        return !nodes[node].dir;
      }
      done := MakeNode(at.value.1, false, at.value.0);
    }

    method EnsureDirAbs(path: string) returns (done: bool)
      requires FsOk(State())
      modifies this, heap
      ensures (State(), done) == EnsureDir(old(State()), path) && FsOk(State())
    {
      assert LinkOk(nodes, ROOT);
      if path == "" || path[0] != '/' {
        return false;
      }
      EnsureOk(State(), ROOT, path);
      var node, p := ROOT, path;
      while true
        invariant FsOk(State()) && In(nodes, node) && nodes[node].dir
        invariant EnsureFrom(State(), node, p) == EnsureDir(old(State()), path)
        decreases |p|
      {
        var c := NextComponent(p);
        if c == End {
          return true;
        } else if c == TooLong {
          return false;
        }
        var child := FindChildLoop(nodes, node, c.name);
        if child < 0 {
          AllocNodeOk(State(), c.name, true, node);
          child := |nodes|;
          var made := MakeNode(c.name, true, node);
          if !made {
            return false;
          }
        }
        if !nodes[child].dir {
          return false;
        }
        node, p := child, c.rest;
      }
    }

    /** `vfs_write_file` up to the copy of the bytes. */
    method WriteFile(cwd: int, path: string, size: U32) returns (block: Option<U32>)
      requires FsOk(State()) && In(nodes, cwd)
      modifies this, heap
      ensures (State(), block) == Vfs.WriteFile(old(State()), cwd, path, size)
    {
      TouchOk(State(), cwd, path);
      hide Vfs.Touch, Aliased, Alloc, ResolveFrom, Ok, Extends, LinkOk;
      var aliased := Aliased(nodes, cwd, path);
      if aliased {
        return None;
      }
      var ok := Touch(cwd, path);
      if !ok {
        return None;
      }
      var node := ResolveLoop(nodes, cwd, path);
      if node == None {
        return None;
      }
      block := PublishAt(node.value, size);
    }

    /** A fresh block for the node's bytes and their terminator. */
    method PublishAt(node: int, size: U32) returns (block: Option<U32>)
      requires FsOk(State()) && In(nodes, node)
      modifies this, heap
      ensures var s := old(State());
              var (h, b) := Alloc(s.h, Wrap(size + 1));
              block == b && State() == if b == None then s else Fs(Published(s.t, node, b.value, size), h)
    {
      block := heap.Kmalloc(Wrap(size + 1));
      if block.Some? {
        nodes := nodes[node := nodes[node].(data := block.value, size := size)];
      }
    }
  }
}
