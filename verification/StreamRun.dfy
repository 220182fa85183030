// Runs of memory-stream calls: every stream is a sparse byte file (user/external/sloplib/slop_stdio.c).

module StreamRun {
  import opened Bytes
  import opened Streams
  import opened StreamOps

  // ---- writing -------------------------------------------------------------

  /** One byte of the arena after a store. */
  lemma StoredByte(s: Libc, k: nat, d: seq<Byte>, i: nat)
    requires Inv(s) && k < |s.files| && s.files[k].pos + |d| + 1 <= s.files[k].capacity && i < ARENA
    requires FileOk(s, k) && |s.arena| == ARENA && s.files[k].mem.Some?
    ensures var f, r := s.files[k], Stored(s, k, d);
            var m, at, size := f.mem.value, f.mem.value + f.pos, r.files[k].size;
            && |r.arena| == ARENA && size == (if f.pos + |d| > f.size then f.pos + |d| else f.size)
            && r.arena[i] == if at <= i < at + |d| then d[i - at] else if i == m + size then 0 else s.arena[i]
  {
    hide FileOk, Inv;
  }

  lemma StoredSize(s: Libc, k: nat, d: seq<Byte>)
    requires Inv(s) && k < |s.files| && s.files[k].pos + |d| + 1 <= s.files[k].capacity
    requires FileOk(s, k) && |s.arena| == ARENA && s.files[k].mem.Some?
    ensures var f, r, v := s.files[k], Stored(s, k, d), View(s, k);
            && |r.arena| == ARENA && |r.files| == |s.files|
            && r.files[k].size == |Put(v.bytes, v.pos, d)| && f.mem.value + |Put(v.bytes, v.pos, d)| <= ARENA
  {
    StoredByte(s, k, d, 0);
    ViewByte(s, k, 0);
    assert |Stored(s, k, d).files| == |s.files|;
    hide Stored, View, FileOk, Inv, Put;
  }

  /** A byte of the stream after a store, seen from the buffer's start: one of the bytes put, or an old one. */
  lemma StoredAt(s: Libc, k: nat, d: seq<Byte>, i: nat, m: U32, v: Sparse)
    requires Inv(s) && k < |s.files| && s.files[k].pos + |d| + 1 <= s.files[k].capacity
    requires FileOk(s, k) && |s.arena| == ARENA && s.files[k].mem == Some(m) && v == View(s, k)
    requires i < |Put(v.bytes, v.pos, d)| && m + i < ARENA
    ensures |Stored(s, k, d).arena| == ARENA && Stored(s, k, d).arena[m + i] == Put(v.bytes, v.pos, d)[i]
  {
    StoredSize(s, k, d);
    ViewByte(s, k, i);
    hide *;
    StoredByte(s, k, d, m + i);
    PutAt(v.bytes, v.pos, d, i);
  }

  lemma PutAt(b: seq<Byte>, pos: nat, d: seq<Byte>, i: nat)
    requires i < |Put(b, pos, d)|
    ensures Put(b, pos, d)[i] == if pos <= i < pos + |d| then d[i - pos] else if i < |b| then b[i] else 0
  {
  }

  lemma ViewByte(s: Libc, k: nat, i: nat)
    requires k < |s.files| && |s.arena| == ARENA && FileOk(s, k) && s.files[k].mem.Some?
    ensures var f, v := s.files[k], View(s, k);
            && v.pos == f.pos && |v.bytes| == f.size && f.mem.value + f.capacity <= ARENA && f.size < f.capacity
            && (i < f.size ==> v.bytes[i] == s.arena[f.mem.value + i])
  {
    hide HeaderAt, IsCapacity;
  }

  /** The bytes of the buffer beyond the stream are zero still, and nothing outside the buffer is touched. */
  lemma StoredAround(s: Libc, k: nat, d: seq<Byte>, i: nat)
    requires Inv(s) && k < |s.files| && s.files[k].pos + |d| + 1 <= s.files[k].capacity && i < ARENA
    requires FileOk(s, k) && |s.arena| == ARENA && s.files[k].mem.Some?
    ensures var f, r := s.files[k], Stored(s, k, d);
            var m := f.mem.value;
            && |r.arena| == ARENA
            && (m + r.files[k].size <= i < m + f.capacity ==> r.arena[i] == 0)
            && (!(m <= i < m + f.capacity) ==> r.arena[i] == s.arena[i])
  {
    StoredByte(s, k, d, i);
    hide Stored, Inv, IsCapacity, HeaderAt;
  }

  lemma StoredBytes(s: Libc, k: nat, d: seq<Byte>)
    requires Inv(s) && k < |s.files| && s.files[k].pos + |d| + 1 <= s.files[k].capacity
    requires FileOk(s, k) && |s.arena| == ARENA && s.files[k].mem.Some?
    ensures var f, r := s.files[k], Stored(s, k, d);
            var m, v := f.mem.value, View(s, k);
            && |r.arena| == ARENA && r.files[k].size == |Put(v.bytes, v.pos, d)| && m + r.files[k].size <= ARENA
            && Part(r.arena, m, r.files[k].size) == Put(v.bytes, v.pos, d)
            && (forall i :: m + r.files[k].size <= i < m + f.capacity ==> r.arena[i] == 0)
            && (forall i :: 0 <= i < ARENA && !(m <= i < m + f.capacity) ==> r.arena[i] == s.arena[i])
  {
    var f, r, v := s.files[k], Stored(s, k, d), View(s, k);
    var m := f.mem.value;
    assert m + f.capacity <= ARENA;
    hide Stored, Inv, FileOk, View, Put;
    StoredSize(s, k, d);
    var size := r.files[k].size;
    var x, y := Part(r.arena, m, size), Put(v.bytes, v.pos, d);
    forall i | 0 <= i < size ensures x[i] == y[i] {
      StoredAt(s, k, d, i, m, v);
    }
    forall i | 0 <= i < ARENA
      ensures m + size <= i < m + f.capacity ==> r.arena[i] == 0
      ensures !(m <= i < m + f.capacity) ==> r.arena[i] == s.arena[i]
    {
      StoredAround(s, k, d, i);
    }
  }

  /** A buffer rewritten in place, its header and its zero tail intact. */
  lemma Rewritten(s: Libc, r: Libc, k: nat)
    requires Inv(s) && k < |s.files| && |s.arena| == |r.arena| == ARENA && FileOk(s, k) && s.files[k].mem.Some?
    requires |r.files| == |s.files| && r.used == s.used
    requires r.files == s.files[k := s.files[k].(pos := r.files[k].pos, size := r.files[k].size)]
    requires r.files[k].pos < HALF && r.files[k].size < s.files[k].capacity
    requires var f := s.files[k];
             && (forall i :: f.mem.value + r.files[k].size <= i < f.mem.value + f.capacity ==> r.arena[i] == 0)
             && forall i :: 0 <= i < ARENA && !(f.mem.value <= i < f.mem.value + f.capacity) ==> r.arena[i] == s.arena[i]
    ensures FileOk(r, k) && FileChange(s, r, k)
  {
    var f := s.files[k];
    hide IsCapacity, EncodeWord;
    HeaderSame(s.arena, r.arena, f.mem.value);
  }

  lemma StoredFields(s: Libc, k: nat, d: seq<Byte>)
    requires Inv(s) && k < |s.files| && FileOk(s, k) && s.files[k].pos + |d| + 1 <= s.files[k].capacity
    ensures var f, r := s.files[k], Stored(s, k, d);
            && |s.arena| == ARENA && f.mem.Some? && r.used == s.used && f.capacity <= HALF
            && r.files == s.files[k := f.(pos := r.files[k].pos, size := r.files[k].size)]
            && r.files[k].pos == f.pos + |d| < HALF && r.files[k].size < f.capacity
  {
    FileBounds(s, k);
    CapacityBound(s.files[k].capacity);
    hide IsCapacity, EncodeWord, HeaderAt, Inv, Blit;
  }

  lemma StoredOk(s: Libc, k: nat, d: seq<Byte>)
    requires Inv(s) && k < |s.files| && FileOk(s, k) && s.files[k].pos + |d| + 1 <= s.files[k].capacity
    ensures var r, v := Stored(s, k, d), View(s, k);
            && FileChange(s, r, k) && |r.arena| == ARENA && FileOk(r, k)
            && View(r, k) == v.(bytes := Put(v.bytes, v.pos, d), pos := v.pos + |d|)
  {
    StoredFields(s, k, d);
    StoredBytes(s, k, d);
    Rewritten(s, Stored(s, k, d), k);
    hide FileOk, FileChange, Inv, Stored, Put;
  }

  /** Whether a store of `n` bytes at the position finds room. */
  predicate Fits(s: Libc, k: nat, n: nat)
    requires Inv(s) && k < |s.files| && n <= USER_MAX
  {
    FileBounds(s, k);
    var f := s.files[k];
    var needed := f.pos + n + 1;
    needed <= f.capacity
    || (needed <= HALF && s.used + AlignUp8(HEADER + Request(f, needed).value) <= ARENA)
  }

  /** Everything other streams show is as before. */
  ghost predicate OthersSame(s: Libc, r: Libc, k: nat) {
    && Inv(s) && Inv(r) && |s.files| <= |r.files|
    && forall j :: 0 <= j < |s.files| && j != k ==> FileOk(s, j) && FileOk(r, j) && View(r, j) == View(s, j)
  }

  ghost predicate Shows(s: Libc, k: nat, v: Sparse) {
    k < |s.files| && |s.arena| == ARENA && FileOk(s, k) && View(s, k) == v
  }

  /** A store: stuck beyond 2^31, refused without room, and otherwise the sparse file's own. */
  lemma PutRefines(s: Libc, k: nat, d: seq<Byte>, v: Sparse)
    requires Inv(s) && k < |s.files| && |d| <= USER_MAX && Shows(s, k, v)
    ensures var (r, done, stuck) := PutBytes(s, k, d);
            && OthersSame(s, r, k)
            && (done <==> Fits(s, k, |d|))
            && (stuck <==> !done && v.pos + |d| + 1 > HALF)
            && Shows(r, k, if done then v.(bytes := Put(v.bytes, v.pos, d), pos := v.pos + |d|)
                           else if stuck then v else v.(err := true))
  {
    hide Shows, View, FileOk, Inv, Ensure, PutBytes, Stored, Fits, Put, OthersSame, Enough, HeaderAt, IsCapacity;
    ShowsFields(s, k, v);
    FileBounds(s, k);
    var f, needed := s.files[k], v.pos + |d| + 1;
    EnsureOk(s, k, needed);
    PutIs(s, k, d, v);
    FitsIs(s, k, |d|);
    match Ensure(s, k, needed) {
      case Stuck =>
        SameOthers(s, k);
      case Full =>
        FieldsChange(s, k, f.(err := true));
      case Room(s1) =>
        PutInRoom(s, k, d, v, s1);
    }
  }

  lemma ShowsFields(s: Libc, k: nat, v: Sparse)
    requires Inv(s) && Shows(s, k, v)
    ensures k < |s.files| && |s.arena| == ARENA && FileOk(s, k) && View(s, k) == v
    ensures var f := s.files[k]; v.pos == f.pos < HALF && v.eof == f.eof && v.err == f.err && |v.bytes| == f.size
  {
  }

  /** The definition, with growing abstract. */
  lemma PutIs(s: Libc, k: nat, d: seq<Byte>, v: Sparse)
    requires Inv(s) && k < |s.files| && |d| <= USER_MAX && FileOk(s, k) && |s.arena| == ARENA
    requires v.pos == s.files[k].pos < HALF
    ensures var e := Ensure(s, k, v.pos + |d| + 1);
            && (e == Stuck ==> PutBytes(s, k, d) == (s, false, true))
            && (e == Full ==> PutBytes(s, k, d)
                              == (s.(files := s.files[k := s.files[k].(err := true)]), false, false))
            && (e.Room? ==> Enough(s, k, v.pos + |d| + 1, e.s) && Inv(e.s) && k < |e.s.files|
                            && e.s.files[k].pos + |d| + 1 <= e.s.files[k].capacity
                            && PutBytes(s, k, d) == (Stored(e.s, k, d), true, false))
  {
    hide Ensure, Stored, Inv, FileOk, Enough, View, HeaderAt;
    var needed := v.pos + |d| + 1;
    EnsureOk(s, k, needed);
    if Ensure(s, k, needed).Room? {
      EnoughFacts(s, k, needed, Ensure(s, k, needed).s);
    }
  }

  lemma EnoughFacts(s: Libc, k: nat, needed: U32, r: Libc)
    requires Enough(s, k, needed, r)
    ensures Inv(r) && k < |s.files| == |r.files| && r.files[k].pos == s.files[k].pos && needed <= r.files[k].capacity
  {
    hide FileOk, Inv, View;
  }

  /** There is room exactly when growing finds it. */
  lemma FitsIs(s: Libc, k: nat, n: nat)
    requires Inv(s) && k < |s.files| && n <= USER_MAX && FileOk(s, k) && |s.arena| == ARENA && s.files[k].pos < HALF
    ensures Fits(s, k, n) <==> Ensure(s, k, s.files[k].pos + n + 1).Room?
  {
    hide Inv, FileOk, IsCapacity, AlignUp8, Moved, Ensure, Request, HeaderAt;
    var f, needed := s.files[k], s.files[k].pos + n + 1;
    FileBounds(s, k);
    if needed > f.capacity {
      EnsureMoves(s, k, needed);
    } else {
      EnsureSame(s, k, needed);
    }
  }

  lemma EnsureSame(s: Libc, k: nat, needed: U32)
    requires Inv(s) && k < |s.files| && needed <= s.files[k].capacity
    ensures Ensure(s, k, needed) == Room(s)
  {
  }

  lemma SameOthers(s: Libc, k: nat)
    requires Inv(s)
    ensures OthersSame(s, s, k)
  {
  }

  lemma PutInRoom(s: Libc, k: nat, d: seq<Byte>, v: Sparse, s1: Libc)
    requires Inv(s) && k < |s.files| && |d| <= USER_MAX && Shows(s, k, v)
    requires Enough(s, k, s.files[k].pos + |d| + 1, s1)
    ensures Inv(s1) && k < |s1.files| && s1.files[k].pos + |d| + 1 <= s1.files[k].capacity
    ensures var r := Stored(s1, k, d);
            OthersSame(s, r, k) && Shows(r, k, v.(bytes := Put(v.bytes, v.pos, d), pos := v.pos + |d|))
  {
    StoredOk(s1, k, d);
    var r := Stored(s1, k, d);
    hide FileOk, View, Inv, Put, Stored, FileChange;
    ChangeStep(s1, r, k);
  }

  // ---- reading and seeking -------------------------------------------------

  lemma FieldsChange(s: Libc, k: nat, f: File)
    requires Inv(s) && k < |s.files| && FileOk(s, k) && f.pos < HALF
    requires f == s.files[k].(pos := f.pos, eof := f.eof, err := f.err)
    ensures var r, v := s.(files := s.files[k := f]), View(s, k);
            OthersSame(s, r, k) && Shows(r, k, v.(pos := f.pos, eof := f.eof, err := f.err))
  {
    var r := s.(files := s.files[k := f]);
    assert FileOk(r, k);
    assert FileChange(s, r, k);
    hide FileOk, FileChange;
    ChangeStep(s, r, k);
  }

  lemma FreadRefines(s: Libc, k: nat, size: U32, nmemb: U32, v: Sparse)
    requires Inv(s) && k < |s.files| && Shows(s, k, v) && size != 0 && nmemb != 0
    ensures var (r, out) := Fread(s, k, size, nmemb); var want := Product(size, nmemb);
            && OthersSame(s, r, k)
            && out == Reply(Items(|Taken(v, want)|, size), Taken(v, want))
            && Shows(r, k, v.(pos := v.pos + |Taken(v, want)|, eof := v.eof || |Taken(v, want)| < want))
  {
    ShowsFields(s, k, v);
    var f, want := s.files[k], Product(size, nmemb);
    var t := Taken(v, want);
    hide *;
    FreadIs(s, k, size, nmemb, f, want, t);
    FieldsChange(s, k, f.(pos := f.pos + |t|, eof := f.eof || |t| < want));
  }

  /** A read, by the number of bytes there are to take. */
  lemma ReadSpec(s: Libc, k: nat, size: U32, nmemb: U32, f: File, want: U32, got: nat)
    requires Inv(s) && k < |s.files| && size != 0 && nmemb != 0 && f == s.files[k] && want == Product(size, nmemb)
    requires got == Takes(f.size, f.pos, want)
    ensures |s.arena| == ARENA && f.pos + got < HALF
    ensures got > 0 ==> f.mem.Some? && f.mem.value + f.pos + got <= ARENA
    ensures Fread(s, k, size, nmemb)
            == (s.(files := s.files[k := f.(pos := f.pos + got, eof := f.eof || got < want)]),
                Reply(Items(got, size), if got == 0 then [] else Part(s.arena, f.mem.value + f.pos, got)))
  {
    hide Inv, FileOk, IsCapacity, HeaderAt, Part, Product, Items, Takes, Separate;
    TakeBounds(s, k, f, want);
  }

  /** What there is to take lies in the stream's buffer. */
  lemma TakeBounds(s: Libc, k: nat, f: File, n: nat)
    requires Inv(s) && k < |s.files| && f == s.files[k]
    ensures |s.arena| == ARENA && FileOk(s, k) && f.pos + Takes(f.size, f.pos, n) < HALF
    ensures Takes(f.size, f.pos, n) > 0 ==> f.mem.Some? && f.mem.value + f.size <= ARENA
  {
    assert FileOk(s, k);
    if f.mem.Some? {
      CapacityBound(f.capacity);
    }
    hide IsCapacity, HeaderAt, Inv;
  }

  lemma TakenIs(s: Libc, k: nat, f: File, n: nat)
    requires Inv(s) && k < |s.files| && |s.arena| == ARENA && FileOk(s, k) && f == s.files[k]
    ensures |View(s, k).bytes| == f.size && View(s, k).pos == f.pos && |Taken(View(s, k), n)| == Takes(f.size, f.pos, n)
    ensures var take := Takes(f.size, f.pos, n);
            take > 0 ==> f.mem.Some? && f.mem.value + f.size <= ARENA
                         && Taken(View(s, k), n) == Part(s.arena, f.mem.value + f.pos, take)
  {
    TakeBounds(s, k, f, n);
    var take := Takes(f.size, f.pos, n);
    hide Inv, FileOk, Part, HeaderAt, Takes, IsCapacity;
    if take > 0 {
      PartOfPart(s.arena, f.mem.value, f.size, f.pos, take);
    }
  }

  lemma FreadIs(s: Libc, k: nat, size: U32, nmemb: U32, f: File, want: U32, t: seq<Byte>)
    requires Inv(s) && k < |s.files| && |s.arena| == ARENA && FileOk(s, k) && want == Product(size, nmemb)
    requires size != 0 && nmemb != 0 && f == s.files[k] && t == Taken(View(s, k), want)
    ensures f.pos + |t| < HALF
    ensures Fread(s, k, size, nmemb)
            == (s.(files := s.files[k := f.(pos := f.pos + |t|, eof := f.eof || |t| < want)]), Reply(Items(|t|, size), t))
  {
    hide FileOk, Inv, View, Taken, Product, Items, Part, HeaderAt, Fread, Takes;
    TakenIs(s, k, f, want);
    ReadSpec(s, k, size, nmemb, f, want, |t|);
  }

  lemma FgetcRefines(s: Libc, k: nat, v: Sparse)
    requires Inv(s) && k < |s.files| && Shows(s, k, v)
    ensures var (r, out) := Fgetc(s, k);
            && OthersSame(s, r, k)
            && (v.pos >= |v.bytes| ==> out == Reply(-1, []) && Shows(r, k, v.(eof := true)))
            && (v.pos < |v.bytes| ==> out == Reply(v.bytes[v.pos], []) && Shows(r, k, v.(pos := v.pos + 1)))
  {
    ShowsFields(s, k, v);
    var f := s.files[k];
    var f' := if f.pos >= f.size then f.(eof := true) else f.(pos := f.pos + 1);
    hide *;
    FgetcIs(s, k);
    FieldsChange(s, k, f');
  }

  lemma FgetcIs(s: Libc, k: nat)
    requires Inv(s) && k < |s.files| && |s.arena| == ARENA && FileOk(s, k)
    ensures var f, v := s.files[k], View(s, k);
            && (f.pos < f.size ==> f.pos + 1 < HALF && f.pos < |v.bytes|)
            && Fgetc(s, k)
               == if f.pos >= f.size then (s.(files := s.files[k := f.(eof := true)]), Reply(-1, []))
                  else (s.(files := s.files[k := f.(pos := f.pos + 1)]), Reply(v.bytes[f.pos], []))
  {
    var f, v := s.files[k], View(s, k);
    TakenIs(s, k, f, 1);
    TakeBounds(s, k, f, 1);
    assert f.pos < f.size ==> v.bytes[f.pos] == s.arena[f.mem.value + f.pos];
    hide Inv, IsCapacity, Taken;
  }

  lemma FseekRefines(s: Libc, k: nat, offset: int, whence: int, v: Sparse)
    requires Inv(s) && k < |s.files| && Shows(s, k, v) && -HALF <= offset < HALF
    ensures var (r, out) := Fseek(s, k, offset, whence);
            var ok := 0 <= whence <= 2 && SeekTo(v, offset, whence) >= 0;
            && OthersSame(s, r, k) && out == Reply(if ok then 0 else -1, [])
            && Shows(r, k, if ok then v.(pos := SeekTo(v, offset, whence), eof := false) else v.(err := true))
  {
    ShowsFields(s, k, v);
    var f, to := s.files[k], SeekTo(v, offset, whence);
    var ok := 0 <= whence <= 2 && to >= 0;
    var f' := if ok then f.(pos := to, eof := false) else f.(err := true);
    assert ok ==> f'.pos < HALF;
    hide *;
    FseekIs(s, k, offset, whence, v);
    FieldsChange(s, k, f');
  }

  lemma FseekIs(s: Libc, k: nat, offset: int, whence: int, v: Sparse)
    requires Inv(s) && k < |s.files| && -HALF <= offset < HALF && v.pos == s.files[k].pos && |v.bytes| == s.files[k].size
    ensures var f, to := s.files[k], SeekTo(v, offset, whence);
            Fseek(s, k, offset, whence)
            == if 0 <= whence <= 2 && to >= 0
               then (s.(files := s.files[k := f.(pos := to, eof := false)]), Reply(0, []))
               else (s.(files := s.files[k := f.(err := true)]), Reply(-1, []))
  {
    hide Inv, FileOk, Position;
  }

  /** Where a seek starts: the beginning, the position or the end. */
  function SeekBase(v: Sparse, whence: int): int {
    match whence
    case 0 => 0
    case 1 => v.pos
    case _ => |v.bytes|
  }

  /** In whole numbers: a seek succeeds exactly if it ends at 0 or above and below 2^31; then that is the position. */
  lemma FseekExactly(s: Libc, k: nat, offset: int, whence: int, v: Sparse)
    requires Inv(s) && k < |s.files| && -HALF <= offset < HALF && Shows(s, k, v)
    ensures var (r, out) := Fseek(s, k, offset, whence);
            var to := SeekBase(v, whence) + offset;
            && (out == Reply(0, []) <==> 0 <= whence <= 2 && 0 <= to < HALF)
            && (out == Reply(0, []) ==> Shows(r, k, v.(pos := to, eof := false)))
  {
    hide Inv, FileOk, View, Fseek, OthersSame;
    ShowsFields(s, k, v);
    FseekRefines(s, k, offset, whence, v);
    SizeBound(s, k);
    var to := SeekBase(v, whence) + offset;
    if to >= HALF {
      assert Wrap(to) == to && Signed(to) < 0;
    } else {
      SignedWrap(to);
    }
    hide Shows, Wrap;
  }

  lemma SizeBound(s: Libc, k: nat)
    requires Inv(s) && k < |s.files| && FileOk(s, k)
    ensures s.files[k].size < HALF
  {
    FileBounds(s, k);
    hide HeaderAt, IsCapacity;
  }

  /** What a read takes: as many bytes from the position on as are asked for, or all there are. */
  lemma TakenExactly(v: Sparse, n: nat)
    ensures var t, left := Taken(v, n), if v.pos < |v.bytes| then |v.bytes| - v.pos else 0;
            |t| == (if n < left then n else left) && forall i :: 0 <= i < |t| ==> t[i] == v.bytes[v.pos + i]
  {
  }

  /** The whole items in `n` bytes. */
  lemma ItemsExactly(n: nat, size: U32)
    requires size != 0
    ensures var q := Items(n, size); q * size <= n < (q + 1) * size
  {
  }

  /** A new stream shows nothing, and takes nothing from the others. */
  lemma TmpfileRefines(s: Libc)
    requires Inv(s)
    ensures var (r, out) := Tmpfile(s);
            && Inv(r) && (out.n < 0 ==> r == s)
            && (forall j :: 0 <= j < |s.files| ==> j < |r.files| && FileOk(s, j) && FileOk(r, j) && View(r, j) == View(s, j))
            && (out.n >= 0 ==> out.n == |s.files| && |r.files| == |s.files| + 1
                               && Shows(r, |s.files|, Sparse([], 0, false, false)))
  {
    MallocIs(s.arena, s.used, FILE_SIZE);
    var (r, out) := Tmpfile(s);
    if out.n >= 0 {
      forall j | 0 <= j < |s.files| ensures FileOk(s, j) && FileOk(r, j) && View(r, j) == View(s, j) {
        NewOther(s, r, j);
      }
      forall i, j | 0 <= i < j < |r.files| ensures Separate(r.files[i], r.files[j]) {
        assert j < |s.files| ==> Separate(s.files[i], s.files[j]);
      }
      hide View, Malloc;
    }
  }

  lemma NewOther(s: Libc, r: Libc, j: nat)
    requires Inv(s) && j < |s.files| < |r.files| && |r.arena| == ARENA && s.used <= r.used <= ARENA
    requires r.files[j] == s.files[j] && forall i :: 0 <= i < s.used ==> r.arena[i] == s.arena[i]
    ensures FileOk(s, j) && FileOk(r, j) && View(r, j) == View(s, j)
  {
    assert FileOk(s, j);
    var f := s.files[j];
    if f.mem.Some? {
      HeaderSame(s.arena, r.arena, f.mem.value);
      PartSame(r.arena, f.mem.value, s.arena, f.mem.value, f.size);
    }
  }

  // ---- runs ----------------------------------------------------------------

  datatype Call =
    | Putc(k: nat, c: Byte)
    | Write(k: nat, size: U32, nmemb: U32, d: seq<Byte>)
    | Getc(k: nat)
    | Get(k: nat, size: U32, nmemb: U32)
    | Seek(k: nat, offset: int, whence: int)
    | New

  /** A stream that exists, a buffer as long as the product it is asked for, a 32-bit offset. */
  predicate Possible(s: Libc, c: Call) {
    && (!c.New? ==> c.k < |s.files|)
    && (c.Write? ==> |c.d| == Product(c.size, c.nmemb) <= USER_MAX)
    && (c.Seek? ==> -HALF <= c.offset < HALF)
  }

  function Do(s: Libc, c: Call): (r: (Libc, Reply))
    requires Inv(s) && Possible(s, c)
  {
    match c
    case Putc(k, b) => Fputc(s, k, b)
    case Write(k, size, nmemb, d) => Fwrite(s, k, size, nmemb, d)
    case Getc(k) => Fgetc(s, k)
    case Get(k, size, nmemb) => Fread(s, k, size, nmemb)
    case Seek(k, offset, whence) => Fseek(s, k, offset, whence)
    case New => Tmpfile(s)
  }

  /** The sparse file after a call that was answered so. */
  function Next(v: Sparse, k: nat, c: Call, out: Reply): (r: Sparse) {
    if c.New? || c.k != k || out == Never then v
    else
      match c
      case Putc(_, b) =>
        if out.n < 0 then v.(err := true) else v.(bytes := Put(v.bytes, v.pos, [b]), pos := v.pos + 1)
      case Write(_, size, nmemb, d) =>
        if size == 0 || nmemb == 0 then v
        else if out.n == 0 then v.(err := true)
        else v.(bytes := Put(v.bytes, v.pos, d), pos := v.pos + |d|)
      case Getc(_) => if v.pos < |v.bytes| then v.(pos := v.pos + 1) else v.(eof := true)
      case Get(_, size, nmemb) =>
        if size == 0 || nmemb == 0 then v
        else
          var want := Product(size, nmemb);
          v.(pos := v.pos + |Taken(v, want)|, eof := v.eof || |Taken(v, want)| < want)
      case Seek(_, offset, whence) =>
        if 0 <= whence <= 2 && SeekTo(v, offset, whence) >= 0
        then v.(pos := SeekTo(v, offset, whence), eof := false) else v.(err := true)
      case New => v
  }

  /** The answers the sparse file allows; a store may also be refused, or stuck if it reaches beyond 2^31. */
  predicate Allows(v: Sparse, k: nat, c: Call, out: Reply) {
    if c.New? || c.k != k then true
    else
      match c
      case Putc(_, b) => if out == Never then v.pos + 2 > HALF else out == Reply(b, []) || out == Reply(-1, [])
      case Write(_, size, nmemb, d) =>
        if size == 0 || nmemb == 0 then out == Reply(0, [])
        else if out == Never then v.pos + |d| + 1 > HALF
        else out == Reply(nmemb, []) || out == Reply(0, [])
      case Getc(_) => out == if v.pos < |v.bytes| then Reply(v.bytes[v.pos], []) else Reply(-1, [])
      case Get(_, size, nmemb) =>
        if size == 0 || nmemb == 0 then out == Reply(0, [])
        else out == Reply(Items(|Taken(v, Product(size, nmemb))|, size), Taken(v, Product(size, nmemb)))
      case Seek(_, offset, whence) =>
        out == Reply(if 0 <= whence <= 2 && SeekTo(v, offset, whence) >= 0 then 0 else -1, [])
      case New => true
  }

  lemma ShowsOther(s: Libc, r: Libc, j: nat, k: nat, v: Sparse)
    requires OthersSame(s, r, j) && k < |s.files| && k != j && Shows(s, k, v)
    ensures Shows(r, k, v)
  {
    hide FileOk;
  }

  /** One call, seen from any one stream. */
  lemma StepRefines(s: Libc, c: Call, k: nat, v: Sparse)
    requires Inv(s) && Possible(s, c) && k < |s.files| && Shows(s, k, v)
    ensures var (r, out) := Do(s, c); Inv(r) && Shows(r, k, Next(v, k, c, out)) && Allows(v, k, c, out)
  {
    var (r, out) := Do(s, c);
    if c.New? {
      TmpfileRefines(s);
      hide FileOk, View, Tmpfile, Inv;
    } else if c.k != k {
      CallKeeps(s, c);
      hide FileOk, View, Do, Inv;
      ShowsOther(s, r, c.k, k, v);
    } else {
      OwnStep(s, c, v);
    }
  }

  lemma OwnPutc(s: Libc, k: nat, b: Byte, v: Sparse)
    requires Inv(s) && Possible(s, Putc(k, b)) && Shows(s, k, v)
    ensures var (r, out) := Do(s, Putc(k, b)); Shows(r, k, Next(v, k, Putc(k, b), out)) && Allows(v, k, Putc(k, b), out)
  {
    PutRefines(s, k, [b], v);
    hide Shows, Inv, Put, Taken, SeekTo, Fgetc, Fread, Fseek, PutBytes, OthersSame, Fits, View, FileOk;
  }

  lemma OwnWrite(s: Libc, k: nat, size: U32, nmemb: U32, d: seq<Byte>, v: Sparse)
    requires Inv(s) && Possible(s, Write(k, size, nmemb, d)) && Shows(s, k, v)
    ensures var (r, out) := Do(s, Write(k, size, nmemb, d));
            Shows(r, k, Next(v, k, Write(k, size, nmemb, d), out))
            && Allows(v, k, Write(k, size, nmemb, d), out)
  {
    if size != 0 && nmemb != 0 {
      PutRefines(s, k, d, v);
    }
    hide Shows, Inv, Put, Taken, SeekTo, Fgetc, Fread, Fseek, PutBytes, OthersSame, Fits, View, FileOk;
  }

  lemma OwnGetc(s: Libc, k: nat, v: Sparse)
    requires Inv(s) && Possible(s, Getc(k)) && Shows(s, k, v)
    ensures var (r, out) := Do(s, Getc(k)); Shows(r, k, Next(v, k, Getc(k), out)) && Allows(v, k, Getc(k), out)
  {
    FgetcRefines(s, k, v);
    hide Shows, Inv, Put, Taken, SeekTo, Fgetc, Fread, Fseek, PutBytes, OthersSame, Fits, View, FileOk;
  }

  lemma OwnGet(s: Libc, k: nat, size: U32, nmemb: U32, v: Sparse)
    requires Inv(s) && Possible(s, Get(k, size, nmemb)) && Shows(s, k, v)
    ensures var (r, out) := Do(s, Get(k, size, nmemb));
            Shows(r, k, Next(v, k, Get(k, size, nmemb), out))
            && Allows(v, k, Get(k, size, nmemb), out)
  {
    if size != 0 && nmemb != 0 {
      FreadRefines(s, k, size, nmemb, v);
    }
    hide Shows, Inv, Put, Taken, SeekTo, Fgetc, Fread, Fseek, PutBytes, OthersSame, Fits, View, FileOk;
  }

  lemma OwnSeek(s: Libc, k: nat, offset: int, whence: int, v: Sparse)
    requires Inv(s) && Possible(s, Seek(k, offset, whence)) && Shows(s, k, v)
    ensures var (r, out) := Do(s, Seek(k, offset, whence));
            Shows(r, k, Next(v, k, Seek(k, offset, whence), out))
            && Allows(v, k, Seek(k, offset, whence), out)
  {
    FseekRefines(s, k, offset, whence, v);
    hide Shows, Inv, Put, Taken, SeekTo, Fgetc, Fread, Fseek, PutBytes, OthersSame, Fits, View, FileOk;
  }

  lemma OwnStep(s: Libc, c: Call, v: Sparse)
    requires Inv(s) && Possible(s, c) && !c.New? && Shows(s, c.k, v)
    ensures var (r, out) := Do(s, c); Inv(r) && Shows(r, c.k, Next(v, c.k, c, out)) && Allows(v, c.k, c, out)
  {
    CallKeeps(s, c);
    hide *;
    match c
    case Putc(k, b) => OwnPutc(s, k, b, v);
    case Write(k, size, nmemb, d) => OwnWrite(s, k, size, nmemb, d, v);
    case Getc(k) => OwnGetc(s, k, v);
    case Get(k, size, nmemb) => OwnGet(s, k, size, nmemb, v);
    case Seek(k, offset, whence) => OwnSeek(s, k, offset, whence, v);
  }

  /** A call touches no stream but its own. */
  lemma CallKeeps(s: Libc, c: Call)
    requires Inv(s) && Possible(s, c) && !c.New?
    ensures Inv(Do(s, c).0) && OthersSame(s, Do(s, c).0, c.k)
  {
    assert FileOk(s, c.k);
    var v := View(s, c.k);
    assert Shows(s, c.k, v);
    SameOthers(s, c.k);
    match c
    case Putc(k, b) => PutRefines(s, k, [b], v);
    case Write(k, size, nmemb, d) => if size != 0 && nmemb != 0 { PutRefines(s, k, d, v); }
    case Getc(k) => FgetcRefines(s, k, v);
    case Get(k, size, nmemb) => if size != 0 && nmemb != 0 { FreadRefines(s, k, size, nmemb, v); }
    case Seek(k, offset, whence) => FseekRefines(s, k, offset, whence, v);
  }

  ghost predicate CanRun(s: Libc, calls: seq<Call>)
    decreases calls
  {
    Inv(s) && (calls == [] || (Possible(s, calls[0]) && CanRun(Do(s, calls[0]).0, calls[1..])))
  }

  ghost function Final(s: Libc, calls: seq<Call>): (r: Libc)
    requires CanRun(s, calls)
    decreases calls
  {
    if calls == [] then s else Final(Do(s, calls[0]).0, calls[1..])
  }

  ghost function Replies(s: Libc, calls: seq<Call>): (outs: seq<Reply>)
    requires CanRun(s, calls)
    ensures |outs| == |calls|
    decreases calls
  {
    if calls == [] then [] else [Do(s, calls[0]).1] + Replies(Do(s, calls[0]).0, calls[1..])
  }

  function Fold(v: Sparse, k: nat, calls: seq<Call>, outs: seq<Reply>): (r: Sparse)
    requires |outs| == |calls|
    decreases calls
  {
    if calls == [] then v else Fold(Next(v, k, calls[0], outs[0]), k, calls[1..], outs[1..])
  }

  predicate AllAllowed(v: Sparse, k: nat, calls: seq<Call>, outs: seq<Reply>)
    requires |outs| == |calls|
    decreases calls
  {
    calls != [] ==> Allows(v, k, calls[0], outs[0])
                    && AllAllowed(Next(v, k, calls[0], outs[0]), k, calls[1..], outs[1..])
  }

  /**
   * Any run of seeks, stores and reads on any number of streams: each behaves throughout as its own sparse byte
   * file, whose bytes past the end, once reached by a seek and a store, read as zeros.
   */
  lemma {:induction false} StreamsAreSparseFiles(s: Libc, calls: seq<Call>, k: nat, v: Sparse)
    requires CanRun(s, calls) && k < |s.files| && Shows(s, k, v)
    ensures Shows(Final(s, calls), k, Fold(v, k, calls, Replies(s, calls)))
    ensures AllAllowed(v, k, calls, Replies(s, calls))
    decreases calls
  {
    if calls != [] {
      var (r, out) := Do(s, calls[0]);
      StepRefines(s, calls[0], k, v);
      assert Replies(s, calls)[1..] == Replies(r, calls[1..]) && Replies(s, calls)[0] == out;
      assert Shows(r, k, Next(v, k, calls[0], out)) ==> k < |r.files|;
      hide Do, Inv, Shows, Next, Allows;
      StreamsAreSparseFiles(r, calls[1..], k, Next(v, k, calls[0], out));
    }
  }

  // ---- from the first state ------------------------------------------------

  /** The arena as the program starts: nothing used, no stream. */
  const FIRST := Libc(Zeros(ARENA), 0, [])

  /** Before the first stream there is nothing to keep. */
  lemma FirstInv()
    ensures Inv(FIRST)
  {
  }

  lemma {:induction false} FinalInv(s: Libc, calls: seq<Call>)
    requires CanRun(s, calls)
    ensures Inv(Final(s, calls))
    decreases calls
  {
    if calls != [] {
      FinalInv(Do(s, calls[0]).0, calls[1..]);
    }
  }

  /**
   * From the start of the program on: whatever has been called before, a stream that is made then is an empty sparse
   * byte file, and behaves as one in whatever is called afterwards.
   */
  lemma EveryStream(before: seq<Call>, after: seq<Call>)
    requires CanRun(FIRST, before) && Inv(Final(FIRST, before))
    requires var (s, out) := Do(Final(FIRST, before), New); out.n >= 0 && CanRun(s, after)
    ensures var (s, out) := Do(Final(FIRST, before), New);
            var empty := Sparse([], 0, false, false);
            && Shows(Final(s, after), out.n, Fold(empty, out.n, after, Replies(s, after)))
            && AllAllowed(empty, out.n, after, Replies(s, after))
  {
    var s0 := Final(FIRST, before);
    TmpfileRefines(s0);
    var (s, out) := Do(s0, New);
    hide Final, Replies, Fold, AllAllowed, Tmpfile, Inv, FileOk, View, CanRun;
    StreamsAreSparseFiles(s, after, out.n, Sparse([], 0, false, false));
  }

  // ---- where a stream falls short ------------------------------------------

  /** Two calls, and the second does not return: a seek to 2^31 - 1 and one byte. */
  lemma SeekThenPutHangs(s: Libc, k: nat, b: Byte)
    requires Inv(s) && k < |s.files|
    ensures var r := Do(s, Seek(k, 0x7FFF_FFFF, 0)).0;
            Inv(r) && k < |r.files| && Do(r, Putc(k, b)).1 == Never
  {
    FileBounds(s, k);
    var v := View(s, k);
    assert Shows(s, k, v);
    FseekRefines(s, k, 0x7FFF_FFFF, 0, v);
    assert SeekTo(v, 0x7FFF_FFFF, 0) == 0x7FFF_FFFF;
    var r := Do(s, Seek(k, 0x7FFF_FFFF, 0)).0;
    var w := v.(pos := 0x7FFF_FFFF, eof := false);
    hide View, FileOk, Inv, Fseek, PutBytes, IsCapacity, HeaderAt, Shows;
    NeverFits(r, k, w);
    PutRefines(r, k, [b], w);
  }

  lemma NeverFits(s: Libc, k: nat, v: Sparse)
    requires Inv(s) && Shows(s, k, v) && v.pos == 0x7FFF_FFFF
    ensures k < |s.files| && !Fits(s, k, 1)
  {
    ShowsFields(s, k, v);
    FileBounds(s, k);
    if s.files[k].capacity != 0 {
      CapacityBound(s.files[k].capacity);
    }
    hide View, FileOk, Inv, IsCapacity, HeaderAt;
  }

  /** The items a store reports are the items it stored, exactly when the product of the sizes does not wrap. */
  lemma FwriteCountIsTrue(s: Libc, k: nat, size: U32, nmemb: U32, d: seq<Byte>)
    requires Inv(s) && Possible(s, Write(k, size, nmemb, d)) && size != 0 && nmemb != 0
    requires Fwrite(s, k, size, nmemb, d).1 == Reply(nmemb, [])
    ensures Items(|d|, size) == nmemb <==> size * nmemb < WORD
  {
    var n := size * nmemb;
    hide Fwrite, Inv;
    if n < WORD {
      assert |d| == n;
      ItemsOf(size, nmemb);
    } else {
      assert |d| < n;
      FewerItems(|d|, size, nmemb);
    }
  }

  lemma ItemsOf(size: U32, nmemb: nat)
    requires size != 0
    ensures Items(size * nmemb, size) == nmemb
  {
    var q := Items(size * nmemb, size);
    NotMore(q, nmemb, size);
    NotMore(nmemb, q, size);
  }

  lemma FewerItems(n: nat, size: U32, nmemb: nat)
    requires size != 0 && n < size * nmemb
    ensures Items(n, size) < nmemb
  {
    var q := Items(n, size);
    assert q * size <= n;
    NotMore(nmemb, q, size);
  }

  /** Fewer than `b + 1` times `size` is at most `b` times. */
  lemma NotMore(a: nat, b: nat, size: nat)
    ensures a * size < (b + 1) * size ==> a <= b
  {
    if a >= b + 1 {
      var c := a - (b + 1);
      assert a * size == (b + 1) * size + c * size;
    }
  }

  /** 2^16 items of 2^16 bytes: none of them stored, all of them reported. */
  lemma WrappedStoreIsEmpty(s: Libc, k: nat, v: Sparse)
    requires Inv(s) && Shows(s, k, v) && Fits(s, k, 0)
    ensures var (r, out) := Fwrite(s, k, 0x1_0000, 0x1_0000, []);
            out == Reply(0x1_0000, []) && Shows(r, k, v.(bytes := Put(v.bytes, v.pos, [])))
  {
    assert Product(0x1_0000, 0x1_0000) == 0;
    PutRefines(s, k, [], v);
    hide Inv, Shows, PutBytes, Put, Fits, OthersSame;
  }
}
