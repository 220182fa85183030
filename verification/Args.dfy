// The start-up stack (kernel/elf.c, `elf_execute_image`) and how crt0 reads it back (user/crt0.asm).

module Args {
  import opened Bytes

  const ARG_MAX := 16
  const RED_ZONE := 64

  /** A C string: its bytes before the terminator. */
  predicate NulFree(s: seq<Byte>) {
    0 !in s
  }

  /** Progress of the descending string loop: `ptr[k]` is the address of argument `|args| - |ptr| + k`. */
  datatype Push = Push(ok: bool, mem: seq<Byte>, sp: int, ptr: seq<int>)

  predicate Room(mem: seq<Byte>, base: int, sp: int, len: int) {
    len <= |mem| - RED_ZONE && base + len + 16 <= sp
  }

  /** The strings of arguments `i..` on the stack, last argument highest. */
  function PushStrings(mem: seq<Byte>, base: int, args: seq<seq<Byte>>, i: nat): (r: Push)
    requires i <= |args|
    ensures |r.mem| == |mem| && base <= r.sp <= base + |mem|
    ensures r.ok ==> |r.ptr| == |args| - i
    decreases |args| - i
  {
    if i == |args| then Push(true, mem, base + |mem|, [])
    else
      var r := PushStrings(mem, base, args, i + 1);
      var s := args[i] + [0];
      if !r.ok || !Room(mem, base, r.sp, |s|) then r.(ok := false)
      else Push(true, Blit(r.mem, r.sp - |s| - base, s), r.sp - |s|, [r.sp - |s|] + r.ptr)
  }

  function Align4(a: int): int { a - a % 4 }

  function Clip(args: seq<seq<Byte>>): seq<seq<Byte>> {
    if |args| > ARG_MAX then args[..ARG_MAX] else args
  }

  datatype Layout = Layout(ok: bool, mem: seq<Byte>, sp: int)

  /** argc, the address of the table, and the table itself with its null entry. */
  function Table(argv: U32, argc: U32, ptr: seq<int>): (ws: seq<U32>)
    requires forall k :: 0 <= k < |ptr| ==> 0 <= ptr[k] < WORD
    ensures |ws| == |ptr| + 3 && ws[0] == argc && ws[1] == argv && ws[|ptr| + 2] == 0
    ensures forall k :: 0 <= k < |ptr| ==> ws[k + 2] == ptr[k]
  {
    [argc, argv] + seq(|ptr|, k requires 0 <= k < |ptr| => ptr[k]) + [0]
  }

  /** The stack slot at `base` after argument passing; on failure the strings written so far stay. */
  function LayOut(mem: seq<Byte>, base: U32, args: seq<seq<Byte>>): (r: Layout)
    requires 8 <= |mem| && base + |mem| < WORD
    ensures |r.mem| == |mem|
  {
    var argc := |Clip(args)|;
    var p := PushStrings(mem, base, Clip(args), 0);
    if !p.ok then Layout(false, p.mem, 0)
    else
      var top := Align4(p.sp);
      if top < base + (argc + 1) * 4 + 8 then Layout(false, p.mem, 0)
      else
        PointersInside(mem, base, Clip(args), 0);
        var sp := top - (argc + 1) * 4 - 8;
        Layout(true, Blit(p.mem, sp - base, EncodeWords(Table(sp + 8, argc, p.ptr))), sp)
  }

  // ---- where the strings are -----------------------------------------------

  /** The string at offset `at`: the bytes up to the first zero. */
  function CString(mem: seq<Byte>, at: nat): seq<Byte>
    requires at <= |mem|
    decreases |mem| - at
  {
    if at == |mem| || mem[at] == 0 then [] else [mem[at]] + CString(mem, at + 1)
  }

  lemma PointersInside(mem: seq<Byte>, base: int, args: seq<seq<Byte>>, i: nat)
    requires i <= |args|
    ensures var r := PushStrings(mem, base, args, i);
            r.ok ==> forall k :: 0 <= k < |r.ptr| ==> r.sp <= r.ptr[k] && r.ptr[k] + |args[i + k]| < base + |mem|
    decreases |args| - i
  {
    if i < |args| {
      PointersInside(mem, base, args, i + 1);
      var r, r1 := PushStrings(mem, base, args, i), PushStrings(mem, base, args, i + 1);
      if r.ok {
        forall k | 0 <= k < |r.ptr| ensures r.sp <= r.ptr[k] && r.ptr[k] + |args[i + k]| < base + |mem| {
          if k > 0 {
            assert r.ptr[k] == r1.ptr[k - 1];
          }
        }
      }
    }
  }

  predicate Holds(mem: seq<Byte>, at: int, s: seq<Byte>) {
    && 0 <= at && at + |s| < |mem| && mem[at + |s|] == 0
    && forall j :: 0 <= j < |s| ==> mem[at + j] == s[j]
  }

  lemma {:induction false} CStringAt(mem: seq<Byte>, at: nat, s: seq<Byte>)
    requires NulFree(s) && Holds(mem, at, s)
    ensures CString(mem, at) == s
    decreases |s|
  {
    if s != [] {
      assert mem[at + 0] == s[0];
      forall j | 0 <= j < |s[1..]| ensures mem[at + 1 + j] == s[1..][j] {
        assert mem[at + (1 + j)] == s[1 + j];
      }
      CStringAt(mem, at + 1, s[1..]);
    }
  }

  /** What one successful step of the string loop adds to the steps before it. */
  lemma PushStep(mem: seq<Byte>, base: int, args: seq<seq<Byte>>, i: nat)
    requires i < |args| && PushStrings(mem, base, args, i).ok
    ensures var r, r1 := PushStrings(mem, base, args, i), PushStrings(mem, base, args, i + 1);
            && r1.ok && r.sp == r1.sp - |args[i]| - 1 && r.sp >= base + 16 && r.ptr == [r.sp] + r1.ptr
            && r.mem == Blit(r1.mem, r.sp - base, args[i] + [0])
  {
  }

  /** A string above the bytes written survives the write. */
  lemma StringSurvives(mem: seq<Byte>, at: nat, b: seq<Byte>, lo: int, s: seq<Byte>)
    requires at + |b| <= lo && Holds(mem, lo, s)
    ensures Holds(Blit(mem, at, b), lo, s)
  {
  }

  lemma StringWritten(mem: seq<Byte>, at: nat, s: seq<Byte>)
    requires at + |s| + 1 <= |mem|
    ensures Holds(Blit(mem, at, s + [0]), at, s)
  {
  }

  /** Every pushed string, with its terminator, is at its pointer. */
  lemma {:induction false} StringsInPlace(mem: seq<Byte>, base: int, args: seq<seq<Byte>>, i: nat, k: nat)
    requires i <= |args| && PushStrings(mem, base, args, i).ok && k < |args| - i
    ensures var r := PushStrings(mem, base, args, i);
            r.sp <= r.ptr[k] && Holds(r.mem, r.ptr[k] - base, args[i + k])
    decreases |args| - i
  {
    hide PushStrings, Blit, Holds;
    PushStep(mem, base, args, i);
    var r, r1 := PushStrings(mem, base, args, i), PushStrings(mem, base, args, i + 1);
    if k == 0 {
      StringWritten(r1.mem, r.sp - base, args[i]);
    } else {
      StringsInPlace(mem, base, args, i + 1, k - 1);
      StringSurvives(r1.mem, r.sp - base, args[i] + [0], r1.ptr[k - 1] - base, args[i + k]);
    }
  }

  // ---- crt0 ----------------------------------------------------------------

  function LoadWord(mem: seq<Byte>, at: nat): U32
    requires at + 4 <= |mem|
  {
    DecodeWord(mem[at..at + 4])
  }

  predicate Readable(mem: seq<Byte>, base: int, sp: int) {
    && base <= sp && sp - base + 8 <= |mem|
    && var argc, argv := LoadWord(mem, sp - base), LoadWord(mem, sp - base + 4);
       && base <= argv && argv - base + 4 * (argc + 1) <= |mem|
       && LoadWord(mem, argv - base + 4 * argc) == 0
       && EntriesInside(mem, base, argv - base, argc)
  }

  /** argv[k] of the table at offset `at`. */
  function Entry(mem: seq<Byte>, at: nat, k: nat): int
    requires at + 4 * k + 4 <= |mem|
  {
    LoadWord(mem, at + 4 * k)
  }

  predicate EntriesInside(mem: seq<Byte>, base: int, at: nat, argc: nat)
    requires at + 4 * argc <= |mem|
  {
    forall k :: 0 <= k < argc ==> base <= Entry(mem, at, k) <= base + |mem|
  }

  /** What crt0 hands to `main`: argc and argv from the top of the stack, and the strings argv points to. */
  function ReadArgs(mem: seq<Byte>, base: int, sp: int): seq<seq<Byte>>
    requires Readable(mem, base, sp)
  {
    var argc, argv := LoadWord(mem, sp - base), LoadWord(mem, sp - base + 4);
    seq(argc, k requires 0 <= k < argc => CString(mem, Entry(mem, argv - base, k) - base))
  }

  lemma LoadEncoded(mem: seq<Byte>, at: nat, w: U32)
    requires at + 4 <= |mem| && mem[at..at + 4] == EncodeWord(w)
    ensures LoadWord(mem, at) == w
  {
    WordRoundTrip(w);
  }

  lemma TableWord(mem: seq<Byte>, at: nat, ws: seq<U32>, m: seq<Byte>, k: nat, pos: nat)
    requires k < |ws| && at + 4 * |ws| <= |mem| && m == Blit(mem, at, EncodeWords(ws)) && pos == at + 4 * k
    ensures LoadWord(m, pos) == ws[k]
  {
    var b := EncodeWords(ws);
    var e := EncodeWord(ws[k]);
    assert b[4 * k..4 * k + 4] == e by { WordAt(ws, k); }
    assert m[pos..pos + 4] == e by { BlitPart(mem, at, b, 4 * k, 4 * k + 4); }
    LoadEncoded(m, pos, ws[k]);
  }

  /** Header, table and null entry, written below the strings at offset `at`. */
  lemma TableReads(mem: seq<Byte>, at: nat, argv: U32, ptr: seq<int>, m: seq<Byte>)
    requires |ptr| <= ARG_MAX && forall j :: 0 <= j < |ptr| ==> 0 <= ptr[j] < WORD
    requires at + 4 * (|ptr| + 3) <= |mem| && m == Blit(mem, at, EncodeWords(Table(argv, |ptr|, ptr)))
    ensures LoadWord(m, at) == |ptr| && LoadWord(m, at + 4) == argv && LoadWord(m, at + 8 + 4 * |ptr|) == 0
    ensures forall k :: 0 <= k < |ptr| ==> Entry(m, at + 8, k) == ptr[k]
  {
    var ws := Table(argv, |ptr|, ptr);
    hide LoadWord, Blit, EncodeWords, Table;
    TableWord(mem, at, ws, m, 0, at);
    TableWord(mem, at, ws, m, 1, at + 4);
    TableWord(mem, at, ws, m, |ptr| + 2, at + 8 + 4 * |ptr|);
    forall k | 0 <= k < |ptr| ensures Entry(m, at + 8, k) == ptr[k] {
      TableWord(mem, at, ws, m, k + 2, at + 8 + 4 * k);
    }
  }

  /** Where `LayOut` put things: the header, the table and every string. */
  predicate LaidOut(m: seq<Byte>, base: int, at: nat, ptr: seq<int>, c: seq<seq<Byte>>)
  {
    && |ptr| == |c| && at + 12 + 4 * |c| <= |m|
    && LoadWord(m, at) == |c| && LoadWord(m, at + 4) == base + at + 8 && LoadWord(m, at + 8 + 4 * |c|) == 0
    && (forall k :: 0 <= k < |c| ==> Entry(m, at + 8, k) == ptr[k])
    && (forall k :: 0 <= k < |c| ==> Holds(m, ptr[k] - base, c[k]))
  }

  lemma LayOutParts(mem: seq<Byte>, base: U32, args: seq<seq<Byte>>) returns (ptr: seq<int>)
    requires 8 <= |mem| && base + |mem| < WORD && LayOut(mem, base, args).ok
    ensures var r := LayOut(mem, base, args);
            r.sp % 4 == 0 && base <= r.sp && LaidOut(r.mem, base, r.sp - base, ptr, Clip(args))
  {
    hide LoadWord, Blit, Holds, PushStrings, Table, EncodeWords;
    var r, c := LayOut(mem, base, args), Clip(args);
    var p := PushStrings(mem, base, c, 0);
    ptr := p.ptr;
    PointersInside(mem, base, c, 0);
    var at := r.sp - base;
    var b := EncodeWords(Table(r.sp + 8, |c|, ptr));
    TableReads(p.mem, at, r.sp + 8, ptr, r.mem);
    forall k | 0 <= k < |c| ensures Holds(r.mem, ptr[k] - base, c[k]) {
      StringsInPlace(mem, base, c, 0, k);
      StringSurvives(p.mem, at, b, ptr[k] - base, c[k]);
    }
  }

  lemma ReadsBack(m: seq<Byte>, base: int, at: nat, ptr: seq<int>, c: seq<seq<Byte>>)
    requires LaidOut(m, base, at, ptr, c) && forall s <- c :: NulFree(s)
    ensures Readable(m, base, base + at) && ReadArgs(m, base, base + at) == c
  {
    assert EntriesInside(m, base, at + 8, |c|) by {
      hide LoadWord;
      var t := at + 8;
      forall k | 0 <= k < |c| ensures base <= Entry(m, t, k) <= base + |m| {
        assert Holds(m, ptr[k] - base, c[k]);
      }
    }
    hide LoadWord, EntriesInside, CString;
    assert Readable(m, base, base + at);
    forall k | 0 <= k < |c| ensures CString(m, Entry(m, at + 8, k) - base) == c[k] {
      assert c[k] in c;
      CStringAt(m, ptr[k] - base, c[k]);
    }
    assert ReadArgs(m, base, base + at) == c;
  }

  /** Reading the laid-out stack as crt0 does gives back the arguments, in order. */
  lemma ArgumentsRoundTrip(mem: seq<Byte>, base: U32, args: seq<seq<Byte>>)
    requires 8 <= |mem| && base + |mem| < WORD && LayOut(mem, base, args).ok
    requires forall s <- args :: NulFree(s)
    ensures var r := LayOut(mem, base, args);
            r.sp % 4 == 0 && Readable(r.mem, base, r.sp) && ReadArgs(r.mem, base, r.sp) == Clip(args)
  {
    hide LoadWord, LaidOut, Blit, EncodeWords, Readable, ReadArgs, NulFree, PushStrings;
    var ptr := LayOutParts(mem, base, args);
    var r := LayOut(mem, base, args);
    ReadsBack(r.mem, base, r.sp - base, ptr, Clip(args));
  }

  // ---- which argument lists are accepted -----------------------------------

  function Total(args: seq<seq<Byte>>, i: nat): (n: nat)
    requires i <= |args|
    decreases |args| - i
  {
    if i == |args| then 0 else |args[i]| + 1 + Total(args, i + 1)
  }

  lemma {:induction false} PushAccepts(mem: seq<Byte>, base: int, args: seq<seq<Byte>>, i: nat)
    requires i <= |args|
    ensures var r := PushStrings(mem, base, args, i);
            && (r.ok ==> r.sp == base + |mem| - Total(args, i))
            && (r.ok <==> (forall k :: i <= k < |args| ==> |args[k]| + 1 <= |mem| - RED_ZONE)
                          && (i < |args| ==> Total(args, i) + 16 <= |mem|))
    decreases |args| - i
  {
    if i < |args| {
      PushAccepts(mem, base, args, i + 1);
    }
  }

  /** The accepted argument lists, in closed form. */
  lemma AcceptedArguments(mem: seq<Byte>, base: U32, args: seq<seq<Byte>>)
    requires 16 <= |mem| && base + |mem| < WORD
    ensures var c := Clip(args);
            LayOut(mem, base, args).ok <==>
            && (forall k :: 0 <= k < |c| ==> |c[k]| + 1 <= |mem| - RED_ZONE)
            && Total(c, 0) + 16 <= |mem|
            && base + 4 * (|c| + 1) + 8 <= Align4(base + |mem| - Total(c, 0))
  {
    PushAccepts(mem, base, Clip(args), 0);
  }

  // ---- the code ------------------------------------------------------------

  method Store(mem: array<Byte>, at: nat, d: seq<Byte>)
    requires at + |d| <= mem.Length
    modifies mem
    ensures mem[..] == Blit(old(mem[..]), at, d)
  {
    for j := 0 to |d|
      invariant forall i :: 0 <= i < mem.Length ==> mem[i] == if at <= i < at + j then d[i - at] else old(mem[i])
    {
      mem[at + j] := d[j];
    }
  }

  /** The descending loop that copies the strings. */
  method PushAll(mem: array<Byte>, base: U32, args: seq<seq<Byte>>) returns (ok: bool, sp: int, ptr: seq<int>)
    requires base + mem.Length < WORD
    modifies mem
    ensures var p := PushStrings(old(mem[..]), base, args, 0);
            ok == p.ok && mem[..] == p.mem && (ok ==> sp == p.sp && ptr == p.ptr)
  {
    sp, ptr, ok := base + mem.Length, [], true;
    ghost var was := mem[..];
    var i := |args|;
    while i > 0
      invariant 0 <= i <= |args| && PushStrings(was, base, args, i) == Push(true, mem[..], sp, ptr)
    {
      var s := args[i - 1] + [0];
      if |s| > mem.Length - RED_ZONE || sp < base + |s| + 16 {
        FailsBelow(was, base, args, i - 1);
        return false, sp, ptr;
      }
      i := i - 1;
      sp := sp - |s|;
      Store(mem, sp - base, s);
      ptr := [sp] + ptr;
    }
  }

  lemma FailsBelow(mem: seq<Byte>, base: int, args: seq<seq<Byte>>, i: nat)
    requires i <= |args| && !PushStrings(mem, base, args, i).ok
    ensures var p := PushStrings(mem, base, args, i);
            !PushStrings(mem, base, args, 0).ok && PushStrings(mem, base, args, 0).mem == p.mem
    decreases i
  {
    if i > 0 {
      FailsBelow(mem, base, args, i - 1);
    }
  }

  /** `elf_execute_image` up to the switch to user mode. */
  method LayOutInPlace(mem: array<Byte>, base: U32, args: seq<seq<Byte>>) returns (ok: bool, sp: int)
    requires 8 <= mem.Length && base + mem.Length < WORD
    modifies mem
    ensures Layout(ok, mem[..], sp) == LayOut(old(mem[..]), base, args)
  {
    hide Blit, EncodeWords, Table, PushStrings;
    var c := Clip(args);
    ghost var was := mem[..];
    var ptr;
    ok, sp, ptr := PushAll(mem, base, c);
    if !ok {
      return false, 0;
    }
    sp := Align4(sp);
    if sp < base + (|c| + 1) * 4 + 8 {
      return false, 0;
    }
    PointersInside(was, base, c, 0);
    sp := sp - (|c| + 1) * 4 - 8;
    Store(mem, sp - base, EncodeWords(Table(sp + 8, |c|, ptr)));
  }
}
