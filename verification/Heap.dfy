// The kernel's bump allocator (kernel/heap.c).

module Heap {
  import opened Bytes

  const USER_BASE: U32 := 0x0030_0000
  const UNIT := 16

  /** `align_up` to 16: the addition and the mask are on 32-bit words. */
  function AlignUp(x: U32): (r: U32)
    ensures r % UNIT == 0 && (x <= WORD - UNIT ==> x <= r < x + UNIT)
    ensures x % UNIT == 0 ==> r == x
  {
    var w := Wrap(x + UNIT - 1);
    w - w % UNIT
  }

  datatype Arena = Arena(start: U32, current: U32, limit: U32, ready: bool) {
    /** What every heap, ready or not, satisfies after any number of requests. */
    predicate Ok() {
      && start % UNIT == 0 && current % UNIT == 0 && start <= current <= limit
      && (ready ==> limit % UNIT == 0 && start < limit <= USER_BASE)
    }
  }

  /** `heap_init`: `memUpper` is used if the boot loader supplied it. */
  function Init(kernelEnd: U32, supplied: bool, memUpper: U32): (a: Arena)
    ensures a.Ok() && a.current == a.start == AlignUp(kernelEnd)
    ensures a.ready <==> a.start < a.limit
  {
    var start := AlignUp(kernelEnd);
    var wanted := AlignUp(Wrap(0x0010_0000 + Wrap(memUpper * 1024)));
    var limit := if wanted > USER_BASE then USER_BASE else wanted;
    if supplied && limit > start then Arena(start, start, limit, true) else Arena(start, start, start, false)
  }

  /**
   * The heap starts at the first multiple of 16 behind the kernel, and ends with the memory reported above the first
   * megabyte, counted on 32-bit words, or at the user image, whichever is lower; it is ready exactly if it has a byte.
   */
  lemma InitIs(kernelEnd: U32, supplied: bool, memUpper: U32)
    ensures var a := Init(kernelEnd, supplied, memUpper);
            var top: int := (0x10_0000 + 0x400 * memUpper) % WORD;
            var end: int := if top < USER_BASE then top else USER_BASE;
            && (kernelEnd <= WORD - UNIT ==> kernelEnd <= a.start < kernelEnd + UNIT)
            && (a.ready <==> supplied && a.start < end) && a.limit == if a.ready then end else a.start
  {
    var x := memUpper * 0x400;
    var top := (0x10_0000 + x) % WORD;
    assert Wrap(0x10_0000 + Wrap(x)) == top;
    assert top % UNIT == 0;
  }

  /** The heap after a request, and the block's address; `None` is the null pointer. */
  function Alloc(a: Arena, size: U32): (r: (Arena, Option<U32>))
  {
    if !a.ready || size == 0 then (a, None)
    else
      var start := AlignUp(a.current);
      var end := Wrap(start + size);
      if end < start || end > a.limit then (a, None)
      else (a.(current := AlignUp(end)), Some(start))
  }

  /** A request succeeds exactly when the bytes are there; then the heap moves past them by less than 16 more. */
  lemma AllocIs(a: Arena, size: U32)
    requires a.Ok()
    ensures var (r, p) := Alloc(a, size);
            && r.Ok() && (p.Some? <==> a.ready && 0 < size && a.current + size <= a.limit)
            && (p == None ==> r == a)
            && (p.Some? ==> p.value == a.current && a.current + size <= r.current < a.current + size + UNIT)
            && r == a.(current := r.current)
  {
    if a.ready && size != 0 && a.current + size >= WORD {
      assert Wrap(a.current + size) == a.current + size - WORD;
    }
  }

  // ---- every request sequence ----------------------------------------------

  datatype Block = Block(base: U32, size: U32)

  function After(a: Arena, sizes: seq<U32>): (r: Arena)
    decreases sizes
  {
    if sizes == [] then a else After(Alloc(a, sizes[0]).0, sizes[1..])
  }

  /** The blocks handed out, oldest first. */
  function Blocks(a: Arena, sizes: seq<U32>): (bs: seq<Block>)
    decreases sizes
  {
    if sizes == [] then []
    else
      var (r, p) := Alloc(a, sizes[0]);
      (if p.Some? then [Block(p.value, sizes[0])] else []) + Blocks(r, sizes[1..])
  }

  function Rounded(bs: seq<Block>): nat {
    if bs == [] then 0 else RoundUp(bs[0].size) + Rounded(bs[1..])
  }

  /** The least multiple of 16 that holds `size` bytes. */
  function RoundUp(size: nat): nat {
    (size + (UNIT - 1)) / UNIT * UNIT
  }

  predicate Apart(b: Block, c: Block) {
    b.base + b.size <= c.base || c.base + c.size <= b.base
  }

  predicate Within(b: Block, lo: int, hi: int) {
    b.base % UNIT == 0 && b.size > 0 && lo <= b.base && b.base + b.size <= hi
  }

  /** Aligned blocks, one after the other apart, between two addresses. */
  predicate Laid(bs: seq<Block>, lo: int, hi: int) {
    && lo <= hi
    && (forall k :: 0 <= k < |bs| ==> Within(bs[k], lo, hi))
    && (forall j, k :: 0 <= j < k < |bs| ==> Apart(bs[j], bs[k]))
  }

  lemma LaidMore(b: Block, rest: seq<Block>, lo: int, mid: int, hi: int)
    requires Within(b, lo, mid) && Laid(rest, mid, hi)
    ensures Laid([b] + rest, lo, hi)
  {
    var bs := [b] + rest;
    forall k | 0 <= k < |bs| ensures Within(bs[k], lo, hi) {
      if k > 0 {
        assert Within(rest[k - 1], mid, hi);
      }
    }
    forall j, k | 0 <= j < k < |bs| ensures Apart(bs[j], bs[k]) {
      assert Within(rest[k - 1], mid, hi);
      if j > 0 {
        assert Apart(rest[j - 1], rest[k - 1]);
      }
    }
  }

  /** All blocks of a request sequence lie in the part of the heap it consumed. */
  lemma {:induction false} BlocksFit(a: Arena, sizes: seq<U32>)
    requires a.Ok()
    ensures var r := After(a, sizes);
            r.Ok() && r == a.(current := r.current) && Laid(Blocks(a, sizes), a.current, r.current)
    decreases sizes
  {
    if sizes != [] {
      var (r, p) := Alloc(a, sizes[0]);
      AllocIs(a, sizes[0]);
      BlocksFit(r, sizes[1..]);
      if p.Some? {
        LaidMore(Block(p.value, sizes[0]), Blocks(r, sizes[1..]), a.current, r.current, After(a, sizes).current);
      } else {
        assert Blocks(a, sizes) == Blocks(a, sizes[1..]);
      }
      hide Alloc, Laid;
    }
  }

  /** The heap moves by exactly the rounded sizes of the blocks it gave out. */
  lemma {:induction false} Consumed(a: Arena, sizes: seq<U32>)
    requires a.Ok()
    ensures After(a, sizes).current - a.current == Rounded(Blocks(a, sizes))
    decreases sizes
  {
    if sizes != [] {
      var (r, p) := Alloc(a, sizes[0]);
      AllocIs(a, sizes[0]);
      Consumed(r, sizes[1..]);
      if p.Some? {
        RoundedUp(a.current, sizes[0]);
        var b := Block(p.value, sizes[0]);
        assert Blocks(a, sizes) == [b] + Blocks(r, sizes[1..]);
        assert ([b] + Blocks(r, sizes[1..]))[1..] == Blocks(r, sizes[1..]);
        assert r.current == AlignUp(a.current + sizes[0]);
        hide RoundUp, AlignUp, Alloc;
      } else {
        assert Blocks(a, sizes) == Blocks(a, sizes[1..]);
      }
    }
  }

  lemma RoundedUp(x: U32, size: U32)
    requires x % UNIT == 0 && x + size <= USER_BASE
    ensures AlignUp(x + size) - x == RoundUp(size)
  {
    var k, n := x / UNIT, size + (UNIT - 1);
    assert x == UNIT * k && Wrap(x + size + UNIT - 1) == UNIT * k + n;
    assert (UNIT * k + n) % UNIT == n % UNIT;
  }

  function Total(a: Arena): U32 { Wrap(a.limit - a.start) }
  function Used(a: Arena): U32 { Wrap(a.current - a.start) }
  function Free(a: Arena): U32 { Wrap(a.limit - a.current) }

  /**
   * Whatever memory the boot loader reports and whatever is asked for: blocks are aligned, disjoint, inside the heap
   * and below the user image; the three counters are the true sizes and add up.
   */
  lemma EveryHeapIsSound(kernelEnd: U32, supplied: bool, memUpper: U32, sizes: seq<U32>)
    ensures var a := Init(kernelEnd, supplied, memUpper);
            var r, bs := After(a, sizes), Blocks(a, sizes);
            && (bs != [] ==> supplied)
            && Laid(bs, a.start, r.limit) && (bs != [] ==> r.limit <= USER_BASE)
            && r.start <= r.current <= r.limit && Used(r) + Free(r) == Total(r) && Used(r) == Rounded(bs)
            && Total(r) == r.limit - r.start
  {
    var a := Init(kernelEnd, supplied, memUpper);
    BlocksFit(a, sizes);
    Consumed(a, sizes);
    NothingUnready(a, sizes);
  }

  lemma {:induction false} NothingUnready(a: Arena, sizes: seq<U32>)
    ensures !a.ready ==> Blocks(a, sizes) == []
    decreases sizes
  {
    if sizes != [] {
      NothingUnready(Alloc(a, sizes[0]).0, sizes[1..]);
    }
  }

  // ---- the object the kernel keeps -----------------------------------------

  class Allocator {
    var start: U32
    var current: U32
    var limit: U32
    var ready: bool

    function State(): Arena
      reads this
    {
      Arena(start, current, limit, ready)
    }

    constructor (kernelEnd: U32, supplied: bool, memUpper: U32)
      ensures State() == Init(kernelEnd, supplied, memUpper)
    {
      var heapStart := AlignUp(kernelEnd);
      start, current, limit, ready := heapStart, heapStart, heapStart, false;
      if supplied {
        var heapLimit := Wrap(0x0010_0000 + Wrap(memUpper * 1024));
        heapLimit := AlignUp(heapLimit);
        if heapLimit > USER_BASE {
          heapLimit := USER_BASE;
        }
        if heapLimit > heapStart {
          limit, ready := heapLimit, true;
        }
      }
    }

    method Kmalloc(size: U32) returns (p: Option<U32>)
      requires State().Ok()
      modifies this`current
      ensures (State(), p) == Alloc(old(State()), size) && State().Ok()
    {
      AllocIs(State(), size);
      if !ready || size == 0 {
        return None;
      }
      var first := AlignUp(current);
      var end := Wrap(first + size);
      if end < first || end > limit {
        return None;
      }
      current := AlignUp(end);
      p := Some(first);
    }
  }
}
