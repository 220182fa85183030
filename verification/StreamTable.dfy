// The library's arena and streams, updated in place (user/external/sloplib/slop_alloc.c, slop_stdio.c).

module StreamTable {
  import opened Bytes
  import opened Streams
  import opened StreamOps
  import opened StreamRun

  class Library {
    const arena: array<Byte>
    var used: U32
    var files: seq<File>

    ghost predicate Valid()
      reads this
    {
      arena.Length == ARENA
    }

    function State(): (s: Libc)
      reads this, arena
    {
      Libc(arena[..], used, files)
    }

    constructor ()
      ensures Valid() && fresh(arena) && State() == Libc(Zeros(ARENA), 0, [])
    {
      arena := new Byte[ARENA](i => 0);
      used, files := 0, [];
      new;
      assert arena[..] == Zeros(ARENA);
    }

    /** The byte loops that fill the arena. */
    method Fill(at: nat, b: seq<Byte>)
      requires Valid() && at + |b| <= ARENA
      modifies arena
      ensures arena[..] == Blit(old(arena[..]), at, b)
    {
      var i := 0;
      while i < |b|
        invariant 0 <= i <= |b|
        invariant forall j :: 0 <= j < ARENA ==> arena[j] == if at <= j < at + i then b[j - at] else old(arena[j])
      {
        arena[at + i] := b[i];
        i := i + 1;
      }
    }

    /** `slop_malloc`. */
    method Allocate(size: U32) returns (p: Option<U32>)
      requires Valid() && used <= ARENA && size <= MAX_REQUEST
      modifies arena, this`used
      ensures Valid() && (arena[..], used, p) == Malloc(old(arena[..]), old(used), size)
    {
      if size == 0 {
        return None;
      }
      var total := AlignUp8(HEADER + size);
      var start := AlignUp8(used);
      if start + total > ARENA {
        return None;
      }
      Fill(start, EncodeWord(size));
      used := start + total;
      p := Some(start + HEADER);
    }

    /** `slop_realloc`. */
    method Reallocate(p: Option<U32>, size: U32) returns (q: Option<U32>)
      requires Valid() && used <= ARENA && used % 8 == 0 && size <= MAX_REQUEST
      requires p.Some? ==> HEADER <= p.value <= ARENA && p.value + HeaderAt(arena[..], p.value) <= ARENA
      modifies arena, this`used
      ensures Valid() && (arena[..], used, q) == Realloc(old(arena[..]), old(used), p, size)
    {
      if p == None {
        q := Allocate(size);
        return;
      }
      if size == 0 {
        return None;
      }
      var stored := HeaderAt(arena[..], p.value);
      if stored >= size {
        return p;
      }
      MallocIs(arena[..], used, size);
      hide Malloc, HeaderAt, AlignUp8, EncodeWord, Blit;
      q := Allocate(size);
      if q.Some? {
        Fill(q.value, Part(arena[..], p.value, stored));
      }
    }

    /** The doubling loop, wherever it ends. */
    method DoublingLoop(c: U32, needed: U32) returns (r: U32)
      requires IsCapacity(c) && Doubled(c, needed).Some?
      ensures Doubled(c, needed) == Some(r)
    {
      var capacity: U32 := c;
      while capacity < needed
        invariant IsCapacity(capacity) && Doubled(capacity, needed) == Doubled(c, needed)
        decreases needed - capacity
      {
        CapacityBound(capacity);
        capacity := Wrap(capacity * 2);
      }
      r := capacity;
    }

    /** The new block with the old bytes copied and the rest cleared. */
    method GrowBuffer(p: Option<U32>, capacity: U32, c: U32) returns (q: Option<U32>)
      requires Valid() && used <= ARENA && used % 8 == 0 && capacity < c <= HALF && (p == None ==> capacity == 0)
      requires p.Some? ==> HEADER <= p.value && p.value + capacity <= used && HeaderAt(arena[..], p.value) == capacity
      modifies arena, this`used
      ensures Valid()
      ensures Grow(old(arena[..]), old(used), p, capacity, c) == if q == None then None else Some((arena[..], used, q.value))
      ensures q == None ==> arena[..] == old(arena[..]) && used == old(used)
    {
      ghost var a, u := arena[..], used;
      hide Realloc, Grow, HeaderAt, Zeros;
      q := Reallocate(p, c);
      Grown(a, u, p, capacity, c, arena[..], used, q);
      if q.Some? {
        var at := q.value + capacity;
        Fill(at, Zeros(c - capacity));
      }
    }

    /** Growing, by how the reallocation turns out. */
    lemma Grown(a: seq<Byte>, u: U32, p: Option<U32>, capacity: U32, c: U32, a1: seq<Byte>, u1: U32, q: Option<U32>)
      requires |a| == ARENA && u <= ARENA && u % 8 == 0 && capacity < c <= HALF && (p == None ==> capacity == 0)
      requires p.Some? ==> HEADER <= p.value && p.value + capacity <= u && HeaderAt(a, p.value) == capacity
      requires Realloc(a, u, p, c) == (a1, u1, q)
      ensures |a1| == ARENA
      ensures q == None ==> a1 == a && u1 == u && Grow(a, u, p, capacity, c) == None
      ensures q.Some? ==> q.value + c <= ARENA
                          && Grow(a, u, p, capacity, c) == Some((Blit(a1, q.value + capacity, Zeros(c - capacity)), u1, q.value))
    {
      hide Realloc, HeaderAt, Zeros, Blit, AlignUp8, EncodeWord, Part;
      if q == None {
        RefusedSame(a, u, p, capacity, c);
      } else {
        ReallocIs(a, u, p, capacity, c);
      }
    }

    lemma RefusedSame(a: seq<Byte>, u: U32, p: Option<U32>, capacity: U32, c: U32)
      requires |a| == ARENA && u <= ARENA && u % 8 == 0 && capacity < c <= HALF
      requires p.Some? ==> HEADER <= p.value && p.value + capacity <= u && HeaderAt(a, p.value) == capacity
      requires Realloc(a, u, p, c).2 == None
      ensures Realloc(a, u, p, c) == (a, u, None)
    {
    }

    /** `slop_ensure_mem_capacity`, wherever its loop ends. */
    method EnsureCapacity(k: nat, needed: U32) returns (ok: bool)
      requires Valid() && Inv(State()) && k < |files| && Ensure(State(), k, needed) != Stuck
      modifies this, arena
      ensures Valid() && Ensure(old(State()), k, needed) == if ok then Room(State()) else Full
      ensures !ok ==> State() == old(State())
    {
      FileBounds(State(), k);
      var f := files[k];
      if needed <= f.capacity {
        return true;
      }
      EnsureIs(State(), k, needed);
      hide Grow, FileOk, Inv, IsCapacity, HeaderAt, Ensure;
      var capacity := DoublingLoop(if f.capacity == 0 then 256 else f.capacity, needed);
      var p := GrowBuffer(f.mem, f.capacity, capacity);
      if p == None {
        return false;
      }
      files := files[k := f.(mem := p, capacity := capacity)];
      ok := true;
    }

    method StoreInto(k: nat, d: seq<Byte>)
      requires Valid() && Inv(State()) && k < |files| && files[k].pos + |d| + 1 <= files[k].capacity
      modifies this, arena
      ensures Valid() && State() == Stored(old(State()), k, d)
    {
      var f := files[k];
      var end := f.pos + |d|;
      var size := if end > f.size then end else f.size;
      StoredIs(State(), k, d, f, end, size);
      hide *;
      Fill(f.mem.value + f.pos, d);
      Fill(f.mem.value + size, [0]);
      files := files[k := f.(pos := end, size := size)];
    }

    lemma StoredIs(s: Libc, k: nat, d: seq<Byte>, f: File, end: nat, size: nat)
      requires Inv(s) && k < |s.files| && f == s.files[k] && end == f.pos + |d| && end + 1 <= f.capacity
      requires size == if end > f.size then end else f.size
      ensures f.mem.Some? && f.mem.value + f.pos + |d| <= ARENA && f.mem.value + size + 1 <= ARENA
      ensures |s.arena| == ARENA && end < WORD && size < WORD
      ensures Stored(s, k, d) == Libc(Blit(Blit(s.arena, f.mem.value + f.pos, d), f.mem.value + size, [0]), s.used,
                                      s.files[k := f.(pos := end, size := size)])
    {
      assert FileOk(s, k);
      hide Inv, IsCapacity, HeaderAt, Blit;
    }

    lemma PosBound(s: Libc, k: nat)
      requires Inv(s) && k < |s.files|
      ensures FileOk(s, k) && |s.arena| == ARENA && s.files[k].pos < HALF
    {
    }

    /** The store shared by `slop_fputc` and `slop_fwrite`; a refusal sets the error flag. */
    method Store(k: nat, d: seq<Byte>) returns (ok: bool)
      requires Valid() && Inv(State()) && k < |files| && |d| <= USER_MAX && !PutBytes(State(), k, d).2
      modifies this, arena
      ensures Valid() && (State(), ok, false) == PutBytes(old(State()), k, d)
    {
      hide Inv, FileOk, Ensure, Stored, PutBytes, Enough;
      PosBound(State(), k);
      PutIs(State(), k, d, Sparse([], files[k].pos, false, false));
      ok := EnsureCapacity(k, files[k].pos + |d| + 1);
      if !ok {
        files := files[k := files[k].(err := true)];
        return;
      }
      StoreInto(k, d);
    }

    /** The copy loop of `slop_fread`, into the caller's buffer. */
    method CopyOut(at: nat, n: nat, buf: array<Byte>)
      requires Valid() && at + n <= ARENA && n <= buf.Length && buf != arena
      modifies buf
      ensures buf[..n] == Part(arena[..], at, n)
    {
      var i := 0;
      while i < n
        invariant 0 <= i <= n && buf[..i] == arena[at..at + i]
      {
        buf[i] := arena[at + i];
        i := i + 1;
      }
    }

    method ReadItems(k: nat, size: U32, nmemb: U32, buf: array<Byte>) returns (n: nat, got: nat)
      requires Valid() && Inv(State()) && k < |files| && size != 0 && nmemb != 0 && Product(size, nmemb) <= buf.Length
      requires buf != arena
      modifies this`files, buf
      ensures Valid() && got <= buf.Length && (State(), Reply(n, buf[..got])) == Fread(old(State()), k, size, nmemb)
    {
      var f, want := files[k], Product(size, nmemb);
      var available := if f.pos < f.size then f.size - f.pos else 0;
      got := if want < available then want else available;
      assert got == Takes(f.size, f.pos, want);
      ReadSpec(State(), k, size, nmemb, f, want, got);
      hide *;
      if got > 0 {
        CopyOut(f.mem.value + f.pos, got, buf);
      }
      files := files[k := f.(pos := f.pos + got, eof := f.eof || got < want)];
      n := Items(got, size);
    }
  }
}
