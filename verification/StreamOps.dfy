// Memory stream operations refine a sparse byte file (user/external/sloplib/slop_stdio.c).

module StreamOps {
  import opened Bytes
  import opened Streams

  // ---- operations ----------------------------------------------------------

  /** A call's answer: a number and the bytes it handed out; `Never` is a call that does not return. */
  datatype Reply = Reply(n: int, bytes: seq<Byte>) | Never

  /** The store common to `slop_fputc` and `slop_fwrite`, with room made for it: the bytes, then a terminator. */
  function Stored(s: Libc, k: nat, d: seq<Byte>): (r: Libc)
    requires Inv(s) && k < |s.files| && s.files[k].pos + |d| + 1 <= s.files[k].capacity
  {
    assert FileOk(s, k);
    var f := s.files[k];
    var m := f.mem.value;
    var end := f.pos + |d|;
    var size := if end > f.size then end else f.size;
    Libc(Blit(Blit(s.arena, m + f.pos, d), m + size, [0]), s.used, s.files[k := f.(pos := end, size := size)])
  }

  /** The product of the two sizes a caller gives, and the whole items in so many bytes. */
  function Product(size: U32, nmemb: U32): U32 {
    Wrap(size * nmemb)
  }

  function Items(n: nat, size: U32): nat
    requires size != 0
  {
    n / size
  }

  /** A new position: the sum of two 32-bit signed numbers is taken to wrap. */
  function Position(base: int, offset: int): (r: int)
    ensures -HALF <= r < HALF
  {
    Signed(Wrap(base + offset))
  }

  function PutBytes(s: Libc, k: nat, d: seq<Byte>): (r: (Libc, bool, bool))
    requires Inv(s) && k < |s.files| && |d| <= USER_MAX
  {
    assert FileOk(s, k);
    match Ensure(s, k, s.files[k].pos + |d| + 1)
    case Stuck => (s, false, true)
    case Full => (s.(files := s.files[k := s.files[k].(err := true)]), false, false)
    case Room(s1) => EnsureOk(s, k, s.files[k].pos + |d| + 1); (Stored(s1, k, d), true, false)
  }

  function Fputc(s: Libc, k: nat, c: Byte): (r: (Libc, Reply))
    requires Inv(s) && k < |s.files|
  {
    var (r, done, stuck) := PutBytes(s, k, [c]);
    (r, if stuck then Never else if done then Reply(c, []) else Reply(-1, []))
  }

  /** `d` is what the caller's buffer holds in the `size * nmemb` bytes (on 32-bit words) it is asked for. */
  function Fwrite(s: Libc, k: nat, size: U32, nmemb: U32, d: seq<Byte>): (r: (Libc, Reply))
    requires Inv(s) && k < |s.files| && |d| == Product(size, nmemb) <= USER_MAX
  {
    if size == 0 || nmemb == 0 then (s, Reply(0, []))
    else
      var (r, done, stuck) := PutBytes(s, k, d);
      (r, if stuck then Never else if done then Reply(nmemb, []) else Reply(0, []))
  }

  function Fgetc(s: Libc, k: nat): (r: (Libc, Reply))
    requires Inv(s) && k < |s.files|
  {
    assert FileOk(s, k);
    var f := s.files[k];
    if f.pos >= f.size then (s.(files := s.files[k := f.(eof := true)]), Reply(-1, []))
    else (s.(files := s.files[k := f.(pos := f.pos + 1)]), Reply(s.arena[f.mem.value + f.pos], []))
  }

  function Fread(s: Libc, k: nat, size: U32, nmemb: U32): (r: (Libc, Reply))
    requires Inv(s) && k < |s.files|
  {
    if size == 0 || nmemb == 0 then (s, Reply(0, []))
    else
      assert FileOk(s, k);
      var f := s.files[k];
      var want := Product(size, nmemb);
      var take := Takes(f.size, f.pos, want);
      (s.(files := s.files[k := f.(pos := f.pos + take, eof := f.eof || take < want)]),
       Reply(Items(take, size), if take == 0 then [] else Part(s.arena, f.mem.value + f.pos, take)))
  }

  /** How many of `n` bytes asked for at `pos` a file of `size` bytes has. */
  function Takes(size: nat, pos: nat, n: nat): (r: nat)
    ensures r <= n && (r == 0 || pos + r <= size)
  {
    var rest := if pos < size then size - pos else 0;
    if n < rest then n else rest
  }

  /** `slop_fseek`. */
  function Fseek(s: Libc, k: nat, offset: int, whence: int): (r: (Libc, Reply))
    requires Inv(s) && k < |s.files| && -HALF <= offset < HALF
  {
    assert FileOk(s, k);
    var f := s.files[k];
    var base := if whence == 0 then 0 else if whence == 1 then f.pos else f.size;
    var pos := Position(base, offset);
    if !(0 <= whence <= 2) || pos < 0 then (s.(files := s.files[k := f.(err := true)]), Reply(-1, []))
    else (s.(files := s.files[k := f.(pos := pos, eof := false)]), Reply(0, []))
  }

  /** `slop_tmpfile`: the stream's own record also comes out of the arena. */
  function Tmpfile(s: Libc): (r: (Libc, Reply))
    requires Inv(s)
  {
    var (a, u, p) := Malloc(s.arena, s.used, FILE_SIZE);
    if p == None then (s, Reply(-1, []))
    else (Libc(a, u, s.files + [File(0, 0, 0, None, false, false)]), Reply(|s.files|, []))
  }

  // ---- the sparse file's own steps -----------------------------------------

  function Taken(v: Sparse, n: nat): (r: seq<Byte>) {
    var take := Takes(|v.bytes|, v.pos, n);
    if take == 0 then [] else Part(v.bytes, v.pos, take)
  }

  function SeekTo(v: Sparse, offset: int, whence: int): (r: int)
    ensures -HALF <= r < HALF
  {
    Position(if whence == 0 then 0 else if whence == 1 then v.pos else |v.bytes|, offset)
  }

  // ---- one stream at a time ------------------------------------------------

  /** Bytes of stream `k`'s block, header included. */
  predicate Mine(s: Libc, k: nat, i: int)
    requires k < |s.files|
  {
    var f := s.files[k];
    f.mem.Some? && f.mem.value - HEADER <= i < f.mem.value + f.capacity
  }

  /** A change of stream `k` alone: its block may be rewritten or replaced by one from the unused part. */
  ghost predicate FileChange(s: Libc, r: Libc, k: nat) {
    && k < |s.files| == |r.files| && r.files == s.files[k := r.files[k]]
    && |s.arena| == |r.arena| == ARENA && s.used <= r.used <= ARENA && r.used % 8 == 0
    && (forall i :: 0 <= i < s.used && !Mine(s, k, i) ==> r.arena[i] == s.arena[i])
    && FileOk(r, k)
    && var f, g := s.files[k], r.files[k];
       (g.mem.Some? ==> (g.mem == f.mem && g.capacity == f.capacity) || g.mem.value - HEADER >= s.used)
  }

  lemma OtherSame(s: Libc, r: Libc, k: nat, j: nat)
    requires Inv(s) && FileChange(s, r, k) && j < |s.files| && j != k
    ensures FileOk(s, j) && FileOk(r, j) && View(r, j) == View(s, j)
  {
    assert FileOk(s, j) && r.files[j] == s.files[j];
    var g := s.files[j];
    if g.mem.Some? {
      assert if j < k then Separate(s.files[j], s.files[k]) else Separate(s.files[k], s.files[j]);
      forall i | g.mem.value - HEADER <= i < g.mem.value + g.capacity ensures r.arena[i] == s.arena[i] {
        assert !Mine(s, k, i);
      }
      HeaderSame(s.arena, r.arena, g.mem.value);
      PartSame(r.arena, g.mem.value, s.arena, g.mem.value, g.size);
    }
  }

  lemma StillSeparate(s: Libc, r: Libc, k: nat, i: nat, j: nat)
    requires Inv(s) && FileChange(s, r, k) && i < j < |r.files|
    ensures Separate(r.files[i], r.files[j])
  {
    assert Separate(s.files[i], s.files[j]) && FileOk(s, i) && FileOk(s, j);
  }

  lemma ChangeStep(s: Libc, r: Libc, k: nat)
    requires Inv(s) && FileChange(s, r, k)
    ensures Inv(r) && forall j :: 0 <= j < |s.files| && j != k ==> FileOk(s, j) && FileOk(r, j) && View(r, j) == View(s, j)
  {
    forall j | 0 <= j < |s.files| && j != k ensures FileOk(s, j) && FileOk(r, j) && View(r, j) == View(s, j) {
      OtherSame(s, r, k, j);
    }
    forall i, j | 0 <= i < j < |r.files| ensures Separate(r.files[i], r.files[j]) {
      StillSeparate(s, r, k, i, j);
    }
  }

  // ---- growth --------------------------------------------------------------

  /** Growing a buffer shows nothing: the bytes are copied, and what is new is zero. */
  lemma EnsureOk(s: Libc, k: nat, needed: U32)
    requires Inv(s) && k < |s.files| && needed > 0
    ensures var e := Ensure(s, k, needed);
            && (e == Stuck <==> needed > HALF && needed > s.files[k].capacity)
            && (e.Room? ==> Enough(s, k, needed, e.s))
  {
    FileBounds(s, k);
    var f, e := s.files[k], Ensure(s, k, needed);
    if needed <= f.capacity {
      assert e == Room(s);
      hide Inv, Ensure, IsCapacity, HeaderAt, View;
      assert FileChange(s, s, k);
      SameEnough(s, k, needed);
    } else {
      EnsureMoves(s, k, needed);
      hide Inv, Ensure, IsCapacity, HeaderAt, FileOk, View, Moved, AlignUp8, Enough, FileChange;
      if e.Room? {
        var c := Request(f, needed).value;
        hide Request;
        MovedOk(s, k, c);
        MovedFits(s, k, c);
        ChangeStep(s, e.s, k);
        EnoughRoom(s, k, needed, c, e.s);
      }
    }
  }

  lemma SameEnough(s: Libc, k: nat, needed: U32)
    requires Inv(s) && k < |s.files| && |s.arena| == ARENA && FileOk(s, k) && FileChange(s, s, k)
    requires needed <= s.files[k].capacity
    ensures Enough(s, k, needed, s)
  {
    hide View, IsCapacity, HeaderAt;
  }

  /** The state after growth: room for what is needed, and everything shown as before. */
  ghost predicate Enough(s: Libc, k: nat, needed: U32, r: Libc) {
    && k < |s.files| && |s.arena| == ARENA && FileChange(s, r, k) && Inv(r) && needed <= r.files[k].capacity
    && r.files[k] == s.files[k].(mem := r.files[k].mem, capacity := r.files[k].capacity)
    && FileOk(s, k) && FileOk(r, k) && View(r, k) == View(s, k)
    && forall j :: 0 <= j < |s.files| && j != k ==> FileOk(s, j) && FileOk(r, j) && View(r, j) == View(s, j)
  }

  lemma EnoughRoom(s: Libc, k: nat, needed: U32, c: U32, r: Libc)
    requires k < |s.files| && |s.arena| == ARENA && FileChange(s, r, k) && Inv(r) && needed <= c && FileOk(s, k)
    requires r.files == s.files[k := s.files[k].(mem := r.files[k].mem, capacity := c)]
    requires FileOk(r, k) && View(r, k) == View(s, k)
    requires forall j :: 0 <= j < |s.files| && j != k ==> FileOk(s, j) && FileOk(r, j) && View(r, j) == View(s, j)
    ensures Enough(s, k, needed, r)
  {
    hide FileOk, View, Inv, FileChange;
  }

  /** Byte `i` of the arena once a block of `capacity` bytes at `p` has been copied to a new one of `c` bytes. */
  function MovedByte(arena: seq<Byte>, used: U32, p: Option<U32>, capacity: U32, c: U32, i: nat): (b: Byte)
    requires |arena| == ARENA && used <= ARENA && i < ARENA && capacity < c <= HALF
    requires p == None ==> capacity == 0
    requires p.Some? ==> HEADER <= p.value && p.value + capacity <= used
  {
    var m := used + HEADER;
    if i < used || i >= m + c then arena[i]
    else if i < m then EncodeWord(c)[i - used]
    else if i < m + capacity then arena[p.value + (i - m)]
    else 0
  }

  function MovedArena(arena: seq<Byte>, used: U32, p: Option<U32>, capacity: U32, c: U32): (r: seq<Byte>)
    requires |arena| == ARENA && used <= ARENA && capacity < c <= HALF
    requires p == None ==> capacity == 0
    requires p.Some? ==> HEADER <= p.value && p.value + capacity <= used
    ensures |r| == ARENA
  {
    seq(ARENA, i requires 0 <= i < ARENA => MovedByte(arena, used, p, capacity, c, i))
  }

  /** The arena after the copies of `slop_realloc` and the zeroing that follows it. */
  function Copied(arena: seq<Byte>, used: U32, p: Option<U32>, capacity: U32, c: U32): (r: seq<Byte>)
    requires |arena| == ARENA && used <= ARENA && capacity < c <= HALF && used + HEADER + c <= ARENA
    requires p == None ==> capacity == 0
    requires p.Some? ==> HEADER <= p.value && p.value + capacity <= used
    ensures |r| == ARENA
  {
    var m := used + HEADER;
    var a := Blit(arena, used, EncodeWord(c));
    var b := if p.Some? then Blit(a, m, Part(a, p.value, capacity)) else a;
    Blit(b, m + capacity, Zeros(c - capacity))
  }

  lemma CopiedByte(arena: seq<Byte>, used: U32, p: Option<U32>, capacity: U32, c: U32, i: nat)
    requires |arena| == ARENA && used <= ARENA && capacity < c <= HALF && used + HEADER + c <= ARENA && i < ARENA
    requires p == None ==> capacity == 0
    requires p.Some? ==> HEADER <= p.value && p.value + capacity <= used
    ensures Copied(arena, used, p, capacity, c)[i] == MovedByte(arena, used, p, capacity, c, i)
  {
    var m := used + HEADER;
    hide EncodeWord, Zeros, Blit;
    if p.Some? && m <= i < m + capacity {
      assert Part(Blit(arena, used, EncodeWord(c)), p.value, capacity)[i - m] == arena[p.value + (i - m)];
    }
  }

  /** They move the block. */
  lemma CopiesAre(arena: seq<Byte>, used: U32, p: Option<U32>, capacity: U32, c: U32)
    requires |arena| == ARENA && used <= ARENA && capacity < c <= HALF && used + HEADER + c <= ARENA
    requires p == None ==> capacity == 0
    requires p.Some? ==> HEADER <= p.value && p.value + capacity <= used
    ensures Copied(arena, used, p, capacity, c) == MovedArena(arena, used, p, capacity, c)
  {
    var x, y := Copied(arena, used, p, capacity, c), MovedArena(arena, used, p, capacity, c);
    hide Copied, MovedByte;
    forall i | 0 <= i < ARENA ensures x[i] == y[i] {
      CopiedByte(arena, used, p, capacity, c, i);
    }
  }

  /** The state with stream `k`'s buffer moved to a new block of `c` bytes at the end of the used part. */
  function Moved(s: Libc, k: nat, c: U32): (r: Libc)
    requires k < |s.files| && |s.arena| == ARENA && FileOk(s, k) && s.files[k].capacity < c <= HALF
    requires s.used + AlignUp8(HEADER + c) <= ARENA && s.used % 8 == 0
  {
    var f := s.files[k];
    Libc(MovedArena(s.arena, s.used, f.mem, f.capacity, c), s.used + AlignUp8(HEADER + c),
         s.files[k := f.(mem := Some(s.used + HEADER), capacity := c)])
  }

  lemma MallocGives(arena: seq<Byte>, used: U32, size: U32)
    requires |arena| == ARENA && used <= ARENA && used % 8 == 0 && 0 < size <= HALF
    ensures Malloc(arena, used, size)
            == if used + AlignUp8(HEADER + size) > ARENA then (arena, used, None)
               else (Blit(arena, used, EncodeWord(size)), used + AlignUp8(HEADER + size), Some(used + HEADER))
    ensures HEADER + size <= AlignUp8(HEADER + size)
  {
    hide Blit, EncodeWord;
  }

  lemma ReallocIs(arena: seq<Byte>, used: U32, p: Option<U32>, capacity: U32, c: U32)
    requires |arena| == ARENA && used <= ARENA && used % 8 == 0 && capacity < c <= HALF
    requires p == None ==> capacity == 0
    requires p.Some? ==> HEADER <= p.value && p.value + capacity <= used
    requires p.Some? ==> HeaderAt(arena, p.value) == capacity
    ensures var (a, u, q) := Realloc(arena, used, p, c);
            var m := used + HEADER;
            if used + AlignUp8(HEADER + c) > ARENA then q == None
            else
              && q == Some(m) && u == used + AlignUp8(HEADER + c) && m + c <= u <= ARENA
              && var a1 := Blit(arena, used, EncodeWord(c));
                 a == if p.Some? then Blit(a1, m, Part(a1, p.value, capacity)) else a1
  {
    MallocGives(arena, used, c);
    MallocIs(arena, used, c);
    hide Blit, EncodeWord, HeaderAt, AlignUp8, Malloc, Part;
  }

  /** The request the doubling settles on. */
  function Request(f: File, needed: U32): (c: Option<U32>)
    requires f.capacity == 0 || IsCapacity(f.capacity)
    ensures c.Some? ==> IsCapacity(c.value) && f.capacity <= c.value && needed <= c.value <= HALF
    ensures c == None <==> needed > HALF
  {
    Doubled(if f.capacity == 0 then 256 else f.capacity, needed)
  }

  lemma FileBounds(s: Libc, k: nat)
    requires Inv(s) && k < |s.files|
    ensures FileOk(s, k) && |s.arena| == ARENA && s.used <= ARENA && s.used % 8 == 0
    ensures var f := s.files[k];
            && (f.capacity == 0 || IsCapacity(f.capacity)) && (f.mem == None ==> f.capacity == 0) && f.size <= f.capacity
            && (f.mem.Some? ==> HEADER <= f.mem.value && f.mem.value + f.capacity <= s.used
                                && HeaderAt(s.arena, f.mem.value) == f.capacity)
  {
    HeaderHolds(s, k);
    assert FileOk(s, k);
  }

  /** The new block is there exactly when it fits the arena. */
  lemma GrowIs(arena: seq<Byte>, used: U32, p: Option<U32>, capacity: U32, c: U32)
    requires |arena| == ARENA && used <= ARENA && used % 8 == 0 && capacity < c <= HALF
    requires p == None ==> capacity == 0
    requires p.Some? ==> HEADER <= p.value && p.value + capacity <= used
    requires p.Some? ==> HeaderAt(arena, p.value) == capacity
    ensures var end := used + AlignUp8(HEADER + c);
            Grow(arena, used, p, capacity, c)
            == if end > ARENA then None else Some((MovedArena(arena, used, p, capacity, c), end, used + HEADER))
  {
    hide MovedArena, Realloc, Zeros, AlignUp8, HeaderAt, EncodeWord, Part;
    ReallocIs(arena, used, p, capacity, c);
    if used + AlignUp8(HEADER + c) <= ARENA {
      CopiesAre(arena, used, p, capacity, c);
    }
    hide Blit;
  }

  /** The definition, with the new block abstract. */
  lemma EnsureIs(s: Libc, k: nat, needed: U32)
    requires Inv(s) && k < |s.files| && s.files[k].capacity < needed
    requires FileOk(s, k) && |s.arena| == ARENA && (s.files[k].capacity == 0 || IsCapacity(s.files[k].capacity))
    ensures var f, c, e := s.files[k], Request(s.files[k], needed), Ensure(s, k, needed);
            if c == None then e == Stuck
            else
              && f.capacity < c.value <= HALF && s.used <= ARENA && s.used % 8 == 0
              && (f.mem.Some? ==> HEADER <= f.mem.value <= ARENA
                                  && f.mem.value + HeaderAt(s.arena, f.mem.value) <= ARENA)
              && var g := Grow(s.arena, s.used, f.mem, f.capacity, c.value);
                 e == if g == None then Full
                      else Room(Libc(g.value.0, g.value.1,
                                     s.files[k := f.(mem := Some(g.value.2), capacity := c.value)]))
  {
    HeaderHolds(s, k);
    assert s.used <= ARENA && s.used % 8 == 0;
    hide Grow, HeaderAt, Inv, FileOk, IsCapacity, Doubled;
  }

  /** Growing is never stuck below 2^31, and then works exactly when the new block fits the arena. */
  lemma EnsureMoves(s: Libc, k: nat, needed: U32)
    requires Inv(s) && k < |s.files| && |s.arena| == ARENA && s.used % 8 == 0 && FileOk(s, k)
    requires s.files[k].capacity < needed && (s.files[k].capacity == 0 || IsCapacity(s.files[k].capacity))
    ensures var c, e := Request(s.files[k], needed), Ensure(s, k, needed);
            if c == None then e == Stuck
            else s.files[k].capacity < c.value <= HALF
                 && if s.used + AlignUp8(HEADER + c.value) > ARENA then e == Full
                    else e == Room(Moved(s, k, c.value))
  {
    hide FileOk, Inv, Ensure, Request, IsCapacity, MovedArena, Moved, Grow, AlignUp8, HeaderAt;
    FileBounds(s, k);
    EnsureIs(s, k, needed);
    var f, c := s.files[k], Request(s.files[k], needed);
    if c.Some? {
      GrowIs(s.arena, s.used, f.mem, f.capacity, c.value);
      if s.used + AlignUp8(HEADER + c.value) <= ARENA {
        MovedIs(s, k, c.value);
      }
    }
  }

  lemma MovedIs(s: Libc, k: nat, c: U32)
    requires k < |s.files| && |s.arena| == ARENA && FileOk(s, k) && s.files[k].capacity < c <= HALF
    requires s.used + AlignUp8(HEADER + c) <= ARENA && s.used % 8 == 0
    ensures var f := s.files[k];
            && (f.mem == None ==> f.capacity == 0)
            && (f.mem.Some? ==> HEADER <= f.mem.value && f.mem.value + f.capacity <= s.used)
            && Moved(s, k, c) == Libc(MovedArena(s.arena, s.used, f.mem, f.capacity, c), s.used + AlignUp8(HEADER + c),
                                      s.files[k := f.(mem := Some(s.used + HEADER), capacity := c)])
  {
    hide MovedArena;
  }

  lemma MovedShows(s: Libc, k: nat, c: U32)
    requires k < |s.files| && |s.arena| == ARENA && FileOk(s, k) && s.files[k].capacity < c <= HALF
    requires s.used + AlignUp8(HEADER + c) <= ARENA && s.used % 8 == 0
    ensures var f, r, m := s.files[k], Moved(s, k, c).arena, s.used + HEADER;
            && |r| == ARENA && HeaderAt(r, m) == c
            && (forall i :: 0 <= i < s.used ==> r[i] == s.arena[i])
            && (forall i :: m + f.size <= i < m + c ==> r[i] == 0)
            && Part(r, m, f.size) == if f.mem.Some? then Part(s.arena, f.mem.value, f.size) else []
  {
    hide EncodeWord;
    var f, r, m := s.files[k], Moved(s, k, c).arena, s.used + HEADER;
    forall i | m + f.size <= i < m + c ensures r[i] == 0 {
      assert r[i] == MovedByte(s.arena, s.used, f.mem, f.capacity, c, i);
    }
    assert r[s.used..m] == EncodeWord(c);
    WordRoundTrip(c);
    if f.mem.Some? {
      PartSame(r, m, s.arena, f.mem.value, f.size);
    }
  }

  lemma MovedFits(s: Libc, k: nat, c: U32)
    requires k < |s.files| && |s.arena| == ARENA && FileOk(s, k) && s.files[k].capacity < c <= HALF
    requires s.used + AlignUp8(HEADER + c) <= ARENA && s.used % 8 == 0
    ensures var f, r, m := s.files[k], Moved(s, k, c), s.used + HEADER;
            && r.files == s.files[k := f.(mem := Some(m), capacity := c)] && f.size <= f.capacity && f.pos < HALF
            && m + c <= r.used <= ARENA && r.used % 8 == 0 && s.used <= r.used && |r.arena| == ARENA
  {
    hide MovedArena;
  }

  lemma MovedOk(s: Libc, k: nat, c: U32)
    requires k < |s.files| && |s.arena| == ARENA && FileOk(s, k) && s.files[k].capacity < c <= HALF && IsCapacity(c)
    requires s.used + AlignUp8(HEADER + c) <= ARENA && s.used % 8 == 0
    ensures var r := Moved(s, k, c); FileOk(r, k) && FileChange(s, r, k) && View(r, k) == View(s, k)
  {
    MovedShows(s, k, c);
    MovedFits(s, k, c);
    hide Moved, HeaderAt, Part, IsCapacity, AlignUp8;
  }
}
