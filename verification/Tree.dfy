// The directory tree: heap nodes linked by parent, first child and next sibling (kernel/vfs.c).

module Tree {
  import opened Bytes
  import opened Paths
  import opened Heap

  const ROOT := 0
  const NIL := -1
  const NODE_SIZE: U32 := 56
  const MAX_PARTS := 16

  /**
   * A node. The allocator never frees and never reuses, so a pointer is the node's place in allocation order, and
   * -1 is null. `data` and `size` are a file's published bytes.
   */
  datatype Node = Node(name: string, dir: bool, parent: int, first: int, next: int, data: U32, size: U32)

  type Forest = seq<Node>

  predicate In(t: Forest, n: int) {
    0 <= n < |t|
  }

  // ---- what every tree satisfies -------------------------------------------

  predicate IsRoot(n: Node) {
    n.dir && n.parent == NIL && n.next == NIL && n.name == ""
  }

  /** Links of one node: children are younger than their parent, and siblings are listed youngest first. */
  predicate LinkOk(t: Forest, n: int)
    requires In(t, n)
  {
    && (n == ROOT ==> IsRoot(t[n]))
    && (n != ROOT ==> IsName(t[n].name) && 0 <= t[n].parent < n && t[t[n].parent].dir)
    && NIL <= t[n].next < n && (t[n].next >= 0 ==> t[n].next != ROOT && t[t[n].next].parent == t[n].parent)
    && NIL <= t[n].first < |t| && (t[n].first >= 0 ==> t[n].dir && t[n].first != ROOT && t[t[n].first].parent == n)
  }

  predicate Links(t: Forest) {
    |t| > 0 && forall n :: 0 <= n < |t| ==> LinkOk(t, n)
  }

  /** The sibling list from node `x` on. */
  function Siblings(t: Forest, x: int): (r: seq<int>)
    requires Links(t) && (x >= 0 ==> In(t, x))
    ensures forall k :: 0 <= k < |r| ==> In(t, r[k]) && r[k] <= x && r[k] != NIL
    decreases x
  {
    if x < 0 then []
    else
      assert LinkOk(t, x);
      [x] + Siblings(t, t[x].next)
  }

  predicate Listed(t: Forest, c: int)
    requires Links(t) && In(t, c)
  {
    c != ROOT ==> assert LinkOk(t, c) && LinkOk(t, t[c].parent); c in Siblings(t, t[t[c].parent].first)
  }

  predicate Twins(t: Forest, c: int, d: int) {
    In(t, c) && In(t, d) && c != ROOT && d != ROOT && t[c].parent == t[d].parent && t[c].name == t[d].name
  }

  /**
   * The well-formed tree: links as above (so parent chains end at the root and files have no children), every node
   * on its parent's list, and no two siblings of one name.
   */
  ghost predicate Ok(t: Forest) {
    var all :=
      && Links(t)
      && (forall c :: In(t, c) ==> Listed(t, c))
      && (forall c, d :: Twins(t, c, d) ==> c == d);
    all
  }

  /** Every node is on one sibling list only, its parent's, and on that list once. */
  lemma OnOneList(t: Forest, n: int, k: nat, m: int, l: nat)
    requires Ok(t) && In(t, n) && In(t, m) && k < |Children(t, n)| && l < |Children(t, m)|
    requires Children(t, n)[k] == Children(t, m)[l]
    ensures n == m && k == l && t[Children(t, n)[k]].parent == n
  {
    assert LinkOk(t, n) && LinkOk(t, m);
    SiblingsShare(t, t[n].first, n, k);
    SiblingsShare(t, t[m].first, m, l);
    SiblingsFall(t, t[n].first, k, l);
  }

  function Children(t: Forest, n: int): (r: seq<int>)
    requires Links(t) && In(t, n)
  {
    assert LinkOk(t, n);
    Siblings(t, t[n].first)
  }

  lemma {:induction false} SiblingsShare(t: Forest, x: int, p: int, k: nat)
    requires Links(t) && (x >= 0 ==> In(t, x) && x != ROOT && t[x].parent == p) && k < |Siblings(t, x)|
    ensures t[Siblings(t, x)[k]].parent == p && Siblings(t, x)[k] != ROOT
    decreases x
  {
    assert LinkOk(t, x);
    if k > 0 {
      SiblingsShare(t, t[x].next, p, k - 1);
    }
  }

  lemma {:induction false} SiblingsFall(t: Forest, x: int, k: nat, l: nat)
    requires Links(t) && (x >= 0 ==> In(t, x)) && k < |Siblings(t, x)| && l < |Siblings(t, x)|
    ensures k < l ==> Siblings(t, x)[k] > Siblings(t, x)[l]
    ensures Siblings(t, x)[k] == Siblings(t, x)[l] ==> k == l
    decreases x
  {
    assert LinkOk(t, x);
    if k > 0 && l > 0 {
      SiblingsFall(t, t[x].next, k - 1, l - 1);
    }
  }

  // ---- lookup --------------------------------------------------------------

  /** The first node from `x` on that is called `w`, or -1. */
  function Search(t: Forest, x: int, w: string): (r: int)
    requires Links(t) && (x >= 0 ==> In(t, x))
    ensures r >= 0 ==> In(t, r) && t[r].name == w && r in Siblings(t, x)
    ensures r < 0 ==> forall c :: c in Siblings(t, x) ==> t[c].name != w
    decreases x
  {
    if x < 0 then NIL
    else
      assert LinkOk(t, x);
      if t[x].name == w then x else Search(t, t[x].next, w)
  }

  /** `vfs_find_child`. */
  function FindChild(t: Forest, n: int, w: string): (r: int)
    requires Links(t) && In(t, n)
    ensures r >= 0 ==> In(t, r)
  {
    assert LinkOk(t, n);
    Search(t, t[n].first, w)
  }

  lemma FoundIsChild(t: Forest, n: int, w: string)
    requires Links(t) && In(t, n)
    ensures var r := FindChild(t, n, w); r >= 0 ==> r != ROOT && t[r].parent == n && t[r].name == w
  {
    assert LinkOk(t, n);
    var r := FindChild(t, n, w);
    if r >= 0 {
      var list := Siblings(t, t[n].first);
      var k :| 0 <= k < |list| && list[k] == r;
      SiblingsShare(t, t[n].first, n, k);
    }
  }

  /** Lookup finds `c` exactly when `c` is the child of that name. */
  lemma FindIs(t: Forest, n: int, w: string, c: int)
    requires Ok(t) && In(t, n) && c >= 0
    ensures FindChild(t, n, w) == c <==> In(t, c) && c != ROOT && t[c].parent == n && t[c].name == w
  {
    FoundIsChild(t, n, w);
    if In(t, c) && c != ROOT && t[c].parent == n && t[c].name == w {
      var r := FindChild(t, n, w);
      assert Listed(t, c) && LinkOk(t, n);
      assert c in Siblings(t, t[n].first);
      assert r >= 0;
      assert Twins(t, r, c);
      hide Links, Listed;
    }
  }

  /** The loop itself. */
  method FindChildLoop(t: Forest, n: int, w: string) returns (child: int)
    requires Links(t) && In(t, n)
    ensures child == FindChild(t, n, w)
  {
    assert LinkOk(t, n);
    child := t[n].first;
    while child >= 0
      invariant child >= 0 ==> In(t, child)
      invariant Search(t, child, w) == FindChild(t, n, w)
      decreases child
    {
      if t[child].name == w {
        return;
      }
      assert LinkOk(t, child);
      child := t[child].next;
    }
    child := NIL;
  }

  // ---- growth --------------------------------------------------------------

  /** The tree after a node called `w` has become the first child of `p`. */
  function Grown(t: Forest, w: string, dir: bool, p: int): (r: Forest)
    requires In(t, p)
  {
    t[p := t[p].(first := |t|)] + [Node(w, dir, p, NIL, t[p].first, 0, 0)]
  }

  /** What growth and publication leave alone. */
  ghost predicate Extends(t: Forest, t': Forest) {
    |t| <= |t'| && forall n :: In(t, n) ==> SameNode(t[n], t'[n])
  }

  predicate SameNode(a: Node, b: Node) {
    a.name == b.name && a.dir == b.dir && a.parent == b.parent && a.next == b.next
  }

  lemma {:induction false} SiblingsStay(t: Forest, t': Forest, x: int)
    requires Links(t) && Links(t') && Extends(t, t') && (x >= 0 ==> In(t, x))
    ensures Siblings(t', x) == Siblings(t, x)
    decreases x
  {
    if x >= 0 {
      assert LinkOk(t, x) && SameNode(t[x], t'[x]);
      SiblingsStay(t, t', t[x].next);
    }
  }

  lemma GrownLinks(t: Forest, w: string, dir: bool, p: int)
    requires Links(t) && In(t, p) && t[p].dir && IsName(w)
    ensures var r := Grown(t, w, dir, p); Links(r) && Extends(t, r)
  {
    var r := Grown(t, w, dir, p);
    forall n | In(r, n) ensures LinkOk(r, n) {
      if n < |t| {
        assert LinkOk(t, n);
      } else {
        assert LinkOk(t, p);
      }
    }
  }

  lemma GrownListed(t: Forest, w: string, dir: bool, p: int, c: int)
    requires Ok(t) && In(t, p) && t[p].dir && IsName(w) && c <= |t| && In(Grown(t, w, dir, p), c)
    requires Links(Grown(t, w, dir, p)) && Extends(t, Grown(t, w, dir, p))
    ensures Listed(Grown(t, w, dir, p), c)
  {
    var r := Grown(t, w, dir, p);
    assert LinkOk(t, p) && LinkOk(r, p) && LinkOk(r, |t|);
    SiblingsStay(t, r, t[p].first);
    assert Siblings(r, |t|) == [|t|] + Siblings(t, t[p].first);
    if c != ROOT && c < |t| {
      assert Listed(t, c) && LinkOk(t, c) && LinkOk(t, t[c].parent) && LinkOk(r, c);
      SiblingsStay(t, r, t[t[c].parent].first);
    }
  }

  lemma GrownTwins(t: Forest, w: string, dir: bool, p: int, c: int, d: int)
    requires Ok(t) && In(t, p) && FindChild(t, p, w) < 0 && Twins(Grown(t, w, dir, p), c, d)
    ensures c == d
  {
    if c < |t| && d < |t| {
      assert Twins(t, c, d);
    } else if c < |t| {
      FindIs(t, p, w, c);
    } else if d < |t| {
      FindIs(t, p, w, d);
    }
  }

  /** A new name under a directory keeps the tree well-formed. */
  lemma GrownOk(t: Forest, w: string, dir: bool, p: int)
    requires Ok(t) && In(t, p) && t[p].dir && IsName(w) && FindChild(t, p, w) < 0
    ensures var r := Grown(t, w, dir, p); Ok(r) && Extends(t, r) && FindChild(r, p, w) == |t|
  {
    var r := Grown(t, w, dir, p);
    GrownLinks(t, w, dir, p);
    forall c | In(r, c) ensures Listed(r, c) {
      GrownListed(t, w, dir, p, c);
    }
    forall c, d | Twins(r, c, d) ensures c == d {
      GrownTwins(t, w, dir, p, c, d);
    }
    FindIs(r, p, w, |t|);
  }

  /** Publishing a file's bytes touches no link. */
  function Published(t: Forest, n: int, data: U32, size: U32): (r: Forest)
    requires In(t, n)
  {
    t[n := t[n].(data := data, size := size)]
  }

  lemma PublishedOk(t: Forest, n: int, data: U32, size: U32)
    requires Ok(t) && In(t, n)
    ensures var r := Published(t, n, data, size); Ok(r) && Extends(t, r) && Extends(r, t)
  {
    var r := Published(t, n, data, size);
    forall m | In(r, m) ensures LinkOk(r, m) {
      assert LinkOk(t, m);
    }
    forall c | In(r, c) ensures Listed(r, c) {
      if c != ROOT {
        assert Listed(t, c) && LinkOk(t, c) && LinkOk(t, t[c].parent) && LinkOk(r, c);
        SiblingsStay(t, r, t[t[c].parent].first);
      }
    }
    forall c, d | Twins(r, c, d) ensures c == d {
      assert Twins(t, c, d);
    }
  }
}
