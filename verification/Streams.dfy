// Memory streams over the bump arena (user/external/sloplib/slop_stdio.c, slop_alloc.c).

module Streams {
  import opened Bytes

  const ARENA := 32 * 1024
  const HEADER := 4
  const FILE_SIZE: U32 := 36
  const USER_MAX := 0x2_0000
  const HALF := 0x8000_0000

  /** The largest request whose rounded sum with any part of the arena stays below 2^32. */
  const MAX_REQUEST := WORD - ARENA - 12

  /** A stream created by `slop_tmpfile`: `mem` is where its buffer starts in the arena. */
  datatype File = File(pos: U32, size: U32, capacity: U32, mem: Option<U32>, eof: bool, err: bool)

  datatype Libc = Libc(arena: seq<Byte>, used: U32, files: seq<File>)

  function AlignUp8(x: U32): (r: U32)
    ensures x <= WORD - 8 ==> x <= r < x + 8
    ensures x % 8 == 0 ==> r == x
    ensures r % 8 == 0
  {
    var w := Wrap(x + 7);
    w - w % 8
  }

  // ---- the allocator -------------------------------------------------------

  /** The size stored in front of the block at `m`. */
  function HeaderAt(arena: seq<Byte>, m: int): U32
    requires HEADER <= m <= |arena|
  {
    DecodeWord(arena[m - HEADER..m])
  }

  /** The `n` bytes at `at`. */
  function Part(arena: seq<Byte>, at: int, n: int): (r: seq<Byte>)
    requires 0 <= at && 0 <= n && at + n <= |arena|
    ensures |r| == n
  {
    arena[at..at + n]
  }

  lemma PartOfPart(a: seq<Byte>, at: int, n: int, from: int, t: int)
    requires 0 <= at && 0 <= n && at + n <= |a| && 0 <= from && 0 <= t && from + t <= n
    ensures Part(Part(a, at, n), from, t) == Part(a, at + from, t)
  {
    SubSlice(a, at, at + n, from, from + t);
  }

  lemma HeaderSame(a: seq<Byte>, b: seq<Byte>, m: int)
    requires HEADER <= m <= |a| == |b| && forall i :: m - HEADER <= i < m ==> a[i] == b[i]
    ensures HeaderAt(a, m) == HeaderAt(b, m)
  {
    assert a[m - HEADER..m] == b[m - HEADER..m];
  }

  lemma PartSame(a: seq<Byte>, at: int, b: seq<Byte>, at': int, n: int)
    requires 0 <= at && 0 <= at' && 0 <= n && at + n <= |a| && at' + n <= |b|
    requires forall i :: at <= i < at + n ==> a[i] == b[i - at + at']
    ensures Part(a, at, n) == Part(b, at', n)
  {
    var x, y := Part(a, at, n), Part(b, at', n);
    forall i | 0 <= i < n ensures x[i] == y[i] {
      assert x[i] == a[at + i] && y[i] == b[at' + i];
    }
  }

  /** The test of `slop_malloc`, on 32-bit words. */
  predicate Granted(used: U32, size: U32) {
    Wrap(AlignUp8(used) + AlignUp8(Wrap(HEADER + size))) <= ARENA
  }

  /** Header and bytes, rounded up, without wrapping. */
  function Needs(size: U32): nat {
    (HEADER + size + 7) / 8 * 8
  }

  /**
   * The test tells whether header and bytes fit, exactly when their sum with the used part does not wrap, or wraps to
   * more than the arena; the last requests below 2^32 are granted a block that is not there.
   */
  lemma GrantIs(used: U32, size: U32)
    requires used <= ARENA && used % 8 == 0
    ensures (Granted(used, size) <==> used + Needs(size) <= ARENA)
            <==> used + Needs(size) < WORD || used + Needs(size) - WORD > ARENA
    ensures size <= MAX_REQUEST ==> (Granted(used, size) <==> used + Needs(size) <= ARENA)
    ensures Granted(0, 0xFFFF_FFFC)
  {
    NeedsWrap(size);
    hide Needs;
    assert Wrap(used + Wrap(Needs(size))) == Wrap(used + Needs(size));
    assert Needs(size) <= WORD + 8 by {
      NeedsWrap(size);
    }
  }

  lemma NeedsWrap(size: U32)
    ensures AlignUp8(Wrap(HEADER + size)) == Wrap(Needs(size))
    ensures HEADER + size <= Needs(size) <= WORD + 8 && Needs(size) < HEADER + size + 8
  {
    var x := HEADER + size;
    RoundsDown(x + 7);
    if x >= WORD {
      assert Wrap(x) == x - WORD < 4;
      RoundsDown(x - WORD + 7);
    } else if x + 7 >= WORD {
      assert Wrap(x + 7) == x + 7 - WORD < 7;
    }
  }

  lemma RoundsDown(y: nat)
    ensures y - y % 8 == y / 8 * 8
  {
  }

  /** `slop_malloc`: the arena, how much of it is used, and the block; its size is stored in front of it. */
  function Malloc(arena: seq<Byte>, used: U32, size: U32): (r: (seq<Byte>, U32, Option<U32>))
    requires |arena| == ARENA && used <= ARENA && size <= MAX_REQUEST
    ensures |r.0| == ARENA
  {
    var total := AlignUp8(HEADER + size);
    var start := AlignUp8(used);
    if size == 0 || start + total > ARENA then (arena, used, None)
    else (Blit(arena, start, EncodeWord(size)), start + total, Some(start + HEADER))
  }

  /** Such a request succeeds exactly when header and bytes fit. */
  lemma MallocIs(arena: seq<Byte>, used: U32, size: U32)
    requires |arena| == ARENA && used <= ARENA && used % 8 == 0 && size <= MAX_REQUEST
    ensures var (a, u, p) := Malloc(arena, used, size);
            && (p.Some? <==> size > 0 && used + AlignUp8(HEADER + size) <= ARENA)
            && (p == None ==> a == arena && u == used)
            && (p.Some? ==> p.value == used + HEADER && u == used + AlignUp8(HEADER + size) <= ARENA && u % 8 == 0
                            && p.value + size <= u && HeaderAt(a, p.value) == size)
            && forall i :: 0 <= i < used ==> a[i] == arena[i]
  {
    if used + AlignUp8(HEADER + size) <= ARENA {
      BlitRead(arena, used, EncodeWord(size));
      WordRoundTrip(size);
    }
  }

  /** `slop_realloc` of a block whose header is in front of it. */
  function Realloc(arena: seq<Byte>, used: U32, p: Option<U32>, size: U32): (r: (seq<Byte>, U32, Option<U32>))
    requires |arena| == ARENA && (p.Some? ==> HEADER <= p.value <= ARENA)
    requires p.Some? ==> p.value + HeaderAt(arena, p.value) <= ARENA
    requires size <= MAX_REQUEST && used <= ARENA && used % 8 == 0
    ensures |r.0| == ARENA
  {
    if p == None then Malloc(arena, used, size)
    else if size == 0 then (arena, used, None)
    else
      var stored := HeaderAt(arena, p.value);
      if stored >= size then (arena, used, p)
      else
        MallocIs(arena, used, size);
        var (a, u, q) := Malloc(arena, used, size);
        if q == None then (a, u, None)
        else (Blit(a, q.value, Part(a, p.value, stored)), u, q)
  }

  // ---- growing a buffer ----------------------------------------------------

  /** 256 times a power of two. */
  predicate IsCapacity(c: int)
    decreases c
  {
    c == 256 || (c > 256 && c % 2 == 0 && IsCapacity(c / 2))
  }

  /** Such numbers leave no room between one and its double. */
  lemma {:induction false} CapacityGap(c: nat, p: nat)
    requires IsCapacity(c) && IsCapacity(p) && c < 2 * p
    ensures c <= p
    decreases c
  {
    if c > 256 && p > 256 {
      CapacityGap(c / 2, p / 2);
    }
  }

  function Shift(k: nat): nat {
    if k == 0 then 256 else 2 * Shift(k - 1)
  }

  lemma {:induction false} ShiftIsCapacity(k: nat)
    ensures IsCapacity(Shift(k)) && Shift(k) >= 256
  {
    if k > 0 {
      ShiftIsCapacity(k - 1);
      assert Shift(k) / 2 == Shift(k - 1);
    }
  }

  lemma CapacityBound(c: U32)
    requires IsCapacity(c)
    ensures c <= HALF && IsCapacity(2 * c)
  {
    hide IsCapacity;
    HalfIsCapacity();
    CapacityGap(c, HALF);
    Doubling(c);
  }

  lemma Doubling(c: nat)
    requires IsCapacity(c)
    ensures IsCapacity(2 * c)
  {
    assert 2 * c / 2 == c;
  }

  lemma HalfIsCapacity()
    ensures IsCapacity(HALF)
  {
    hide IsCapacity;
    ShiftIsCapacity(23);
    assert Shift(8) == 0x1_0000;
    assert Shift(16) == 0x100_0000;
  }

  /** The doubling loop, on 32-bit words; `None` is the loop stuck at zero. */
  function Doubled(c: U32, needed: U32): (r: Option<U32>)
    requires IsCapacity(c)
    ensures r.Some? ==> IsCapacity(r.value) && c <= r.value && needed <= r.value <= HALF
    ensures r == None <==> needed > HALF
    decreases needed - c
  {
    CapacityBound(c);
    if c >= needed then Some(c)
    else
      var d := Wrap(2 * c);
      if d == 0 then None else Doubled(d, needed)
  }

  datatype Ensured = Stuck | Full | Room(s: Libc)

  /** The new block with the old bytes copied and the rest cleared; `None` if there is no room for it. */
  function Grow(arena: seq<Byte>, used: U32, p: Option<U32>, capacity: U32, c: U32): (r: Option<(seq<Byte>, U32, U32)>)
    requires |arena| == ARENA && (p.Some? ==> HEADER <= p.value <= ARENA)
    requires p.Some? ==> p.value + HeaderAt(arena, p.value) <= ARENA
    requires capacity <= c <= HALF && used <= ARENA && used % 8 == 0
  {
    var (a, u, q) := Realloc(arena, used, p, c);
    if q == None || q.value + c > ARENA then None
    else Some((Blit(a, q.value + capacity, Zeros(c - capacity)), u, q.value))
  }

  /** `slop_ensure_mem_capacity`. */
  function Ensure(s: Libc, k: nat, needed: U32): (r: Ensured)
    requires Inv(s) && k < |s.files|
  {
    assert FileOk(s, k);
    var f := s.files[k];
    if needed <= f.capacity then Room(s)
    else
      match Doubled(if f.capacity == 0 then 256 else f.capacity, needed)
      case None => Stuck
      case Some(capacity) =>
        HeaderHolds(s, k);
        match Grow(s.arena, s.used, f.mem, f.capacity, capacity)
        case None => Full
        case Some(grown) =>
          Room(Libc(grown.0, grown.1, s.files[k := f.(mem := Some(grown.2), capacity := capacity)]))
  }

  // ---- what holds between calls --------------------------------------------

  /**
   * A stream has no buffer yet, or one inside the used part with its capacity in the header, and every byte of it
   * beyond the stream's size is zero.
   */
  predicate FileOk(s: Libc, k: nat)
    requires k < |s.files| && |s.arena| == ARENA
  {
    var f := s.files[k];
    && f.pos < HALF
    && match f.mem
       case None => f.capacity == 0 && f.size == 0
       case Some(m) =>
         && IsCapacity(f.capacity) && f.size < f.capacity && HEADER <= m && m + f.capacity <= s.used <= ARENA
         && HeaderAt(s.arena, m) == f.capacity
         && forall i :: m + f.size <= i < m + f.capacity ==> s.arena[i] == 0
  }

  /** Two streams' buffers, headers included, do not meet. */
  predicate Separate(f: File, g: File) {
    f.mem.Some? && g.mem.Some?
    ==> f.mem.value + f.capacity <= g.mem.value - HEADER || g.mem.value + g.capacity <= f.mem.value - HEADER
  }

  ghost predicate Inv(s: Libc) {
    var all :=
      && |s.arena| == ARENA && s.used <= ARENA && s.used % 8 == 0
      && (forall k :: 0 <= k < |s.files| ==> FileOk(s, k))
      && (forall j, k :: 0 <= j < k < |s.files| ==> Separate(s.files[j], s.files[k]));
    all
  }

  lemma HeaderHolds(s: Libc, k: nat)
    requires Inv(s) && k < |s.files|
    ensures var m := s.files[k].mem;
            m.Some? ==> HEADER <= m.value <= ARENA
                        && HeaderAt(s.arena, m.value) == s.files[k].capacity
                        && m.value + s.files[k].capacity <= ARENA
  {
    assert FileOk(s, k);
  }

  // ---- the sparse byte file ------------------------------------------------

  /** A stream as its user sees it. */
  datatype Sparse = Sparse(bytes: seq<Byte>, pos: nat, eof: bool, err: bool)

  function View(s: Libc, k: nat): (v: Sparse)
    requires k < |s.files| && |s.arena| == ARENA && FileOk(s, k)
  {
    var f := s.files[k];
    Sparse(if f.mem.Some? then Part(s.arena, f.mem.value, f.size) else [], f.pos, f.eof, f.err)
  }

  /** Bytes with `d` put at `pos`, the gap before it zero. */
  function Put(b: seq<Byte>, pos: nat, d: seq<Byte>): (r: seq<Byte>)
    ensures |r| == if pos + |d| > |b| then pos + |d| else |b|
    ensures forall i :: 0 <= i < |r| ==> r[i] == if pos <= i < pos + |d| then d[i - pos] else if i < |b| then b[i] else 0
  {
    var n := if pos + |d| > |b| then pos + |d| else |b|;
    seq(n, i requires 0 <= i < n => if pos <= i < pos + |d| then d[i - pos] else if i < |b| then b[i] else 0)
  }
}
