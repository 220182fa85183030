// ELF files as the System V ABI (gABI) lays them out, and what planning makes of them (kernel/elf.c).

module ElfFile {
  import opened Bytes
  import opened Elf

  // ---- the layout of chapters 4 "ELF Header" and 5 "Program Header" --------

  function LittleHalf(h: U32): (b: seq<Byte>)
    requires h < 0x1_0000
    ensures |b| == 2
  {
    [h % 256, h / 256]
  }

  /** The fields of an Elf32_Ehdr, in their order. */
  datatype Ehdr = Ehdr(ident: seq<Byte>, kind: U32, machine: U32, version: U32, entry: U32, phoff: U32, shoff: U32,
                       flags: U32, ehsize: U32, phentsize: U32, phnum: U32, shentsize: U32, shnum: U32, shstrndx: U32)
  {
    predicate Ok() {
      && |ident| == 16 && kind < 0x1_0000 && machine < 0x1_0000 && ehsize < 0x1_0000 && phentsize < 0x1_0000
      && phnum < 0x1_0000 && shentsize < 0x1_0000 && shnum < 0x1_0000 && shstrndx < 0x1_0000
    }
    function Write(): (b: seq<Byte>)
      requires Ok()
      ensures |b| == EHDR_SIZE
    {
      ident + LittleHalf(kind) + LittleHalf(machine) + EncodeWord(version) + EncodeWord(entry) + EncodeWord(phoff)
      + EncodeWord(shoff) + EncodeWord(flags) + LittleHalf(ehsize) + LittleHalf(phentsize) + LittleHalf(phnum)
      + LittleHalf(shentsize) + LittleHalf(shnum) + LittleHalf(shstrndx)
    }
    /** What the loader asks of a header, field by field. */
    predicate Wanted() {
      && |ident| == 16 && ident[..7] == [0x7F, 0x45, 0x4C, 0x46, 1, 1, 1]
      && kind == 2 && machine == 3 && version == 1 && phentsize == 32 && phnum != 0
    }
  }

  /** The fields of an Elf32_Phdr, in their order. */
  datatype Header = Header(kind: U32, offset: U32, vaddr: U32, paddr: U32, filesz: U32, memsz: U32, flags: U32,
                           align: U32)
  {
    function Write(): (b: seq<Byte>)
      ensures |b| == PHDR_SIZE
    {
      EncodeWord(kind) + EncodeWord(offset) + EncodeWord(vaddr) + EncodeWord(paddr) + EncodeWord(filesz)
      + EncodeWord(memsz) + EncodeWord(flags) + EncodeWord(align)
    }
    predicate Load() { kind == 1 }
    /** Where its memory ends, on 32-bit words. */
    function End(): U32 { Wrap(vaddr + memsz) }
    /** A PT_LOAD header that is not refused by itself. */
    predicate Sound(size: nat) {
      Load() ==> filesz <= memsz && Wrap(offset + filesz) <= size
    }
  }

  /** A file that begins with the header `e` and holds the program headers `ph` where it says; the rest is free. */
  predicate Holds(f: seq<Byte>, e: Ehdr, ph: seq<Header>) {
    && e.Ok() && EHDR_SIZE <= |f| < WORD && f[..EHDR_SIZE] == e.Write()
    && |ph| == e.phnum && e.phoff + e.phnum * PHDR_SIZE <= |f|
    && forall i :: 0 <= i < |ph| ==> HoldsHeader(f, e.phoff, ph, i)
  }

  predicate HoldsHeader(f: seq<Byte>, phoff: nat, ph: seq<Header>, i: nat)
    requires i < |ph| && phoff + |ph| * PHDR_SIZE <= |f|
  {
    assert phoff + i * PHDR_SIZE + PHDR_SIZE <= |f| by { InTable(phoff, |ph|, i, PHDR_SIZE - 1); }
    f[phoff + i * PHDR_SIZE..phoff + i * PHDR_SIZE + PHDR_SIZE] == ph[i].Write()
  }

  // ---- reading the fields back ---------------------------------------------

  /** The word at an offset, if the bytes there are those of `w`. */
  lemma WordThere(m: Source, x: nat, w: U32)
    requires x + 4 <= |m.file| < WORD && m.file[x..x + 4] == EncodeWord(w)
    ensures m.Word(x) == w
  {
    var b := m.file[x..x + 4];
    assert m.At(x) == b[0] && m.At(x + 1) == b[1] && m.At(x + 2) == b[2] && m.At(x + 3) == b[3];
    assert [b[0], b[1], b[2], b[3]] == b;
    WordRoundTrip(w);
  }

  lemma HalfThere(m: Source, x: nat, h: U32)
    requires h < 0x1_0000 && x + 2 <= |m.file| < WORD && m.file[x..x + 2] == LittleHalf(h)
    ensures m.Half(x) == h
  {
    var b := m.file[x..x + 2];
    assert m.At(x) == b[0] && m.At(x + 1) == b[1];
  }

  /** A piece of a written record is the field at that place. */
  lemma Piece(f: seq<Byte>, at: nat, r: seq<Byte>, from: nat, n: nat)
    requires at + |r| <= |f| && f[at..at + |r|] == r && from + n <= |r|
    ensures f[at + from..at + from + n] == r[from..from + n]
  {
    SubSlice(f, at, at + |r|, from, from + n);
  }

  /** The pieces of a program header, at the offsets of the gABI. */
  lemma HeaderPieces(h: Header)
    ensures var r := h.Write();
            && r[0..4] == EncodeWord(h.kind) && r[4..8] == EncodeWord(h.offset) && r[8..12] == EncodeWord(h.vaddr)
            && r[16..20] == EncodeWord(h.filesz) && r[20..24] == EncodeWord(h.memsz)
  {
    hide EncodeWord;
  }

  lemma EhdrPieces(e: Ehdr)
    requires e.Ok()
    ensures var r := e.Write();
            && r[..16] == e.ident && r[16..18] == LittleHalf(e.kind) && r[18..20] == LittleHalf(e.machine)
            && r[20..24] == EncodeWord(e.version) && r[24..28] == EncodeWord(e.entry) && r[28..32] == EncodeWord(e.phoff)
            && r[42..44] == LittleHalf(e.phentsize) && r[44..46] == LittleHalf(e.phnum)
  {
    hide EncodeWord, LittleHalf;
  }

  lemma HeaderRead(m: Source, x: nat, h: Header)
    requires x + PHDR_SIZE <= |m.file| < WORD && m.file[x..x + PHDR_SIZE] == h.Write()
    ensures PhdrAt(m, x) == Phdr(kind := h.kind, offset := h.offset, vaddr := h.vaddr, filesz := h.filesz, memsz := h.memsz)
  {
    var r := h.Write();
    HeaderPieces(h);
    hide Header.Write, EncodeWord, Source.Word;
    Piece(m.file, x, r, 0, 4);
    WordThere(m, x, h.kind);
    Piece(m.file, x, r, 4, 4);
    WordThere(m, x + 4, h.offset);
    Piece(m.file, x, r, 8, 4);
    WordThere(m, x + 8, h.vaddr);
    Piece(m.file, x, r, 16, 4);
    WordThere(m, x + 16, h.filesz);
    Piece(m.file, x, r, 20, 4);
    WordThere(m, x + 20, h.memsz);
  }

  lemma EhdrRead(m: Source, e: Ehdr)
    requires e.Ok() && EHDR_SIZE <= |m.file| < WORD && m.file[..EHDR_SIZE] == e.Write()
    ensures m.file[..16] == e.ident && m.Half(16) == e.kind && m.Half(18) == e.machine && m.Word(20) == e.version
    ensures m.Word(24) == e.entry && m.Word(28) == e.phoff && m.Half(42) == e.phentsize && m.Half(44) == e.phnum
  {
    var r, f := e.Write(), m.file;
    assert f[0..0 + |r|] == r;
    EhdrPieces(e);
    hide Ehdr.Write, EncodeWord, LittleHalf, Source.Word, Source.Half;
    Piece(f, 0, r, 0, 16);
    assert f[..16] == f[0..16] && r[..16] == r[0..16];
    Piece(f, 0, r, 16, 2);
    HalfThere(m, 16, e.kind);
    Piece(f, 0, r, 18, 2);
    HalfThere(m, 18, e.machine);
    Piece(f, 0, r, 20, 4);
    WordThere(m, 20, e.version);
    Piece(f, 0, r, 24, 4);
    WordThere(m, 24, e.entry);
    Piece(f, 0, r, 28, 4);
    WordThere(m, 28, e.phoff);
    Piece(f, 0, r, 42, 2);
    HalfThere(m, 42, e.phentsize);
    Piece(f, 0, r, 44, 2);
    HalfThere(m, 44, e.phnum);
  }

  // ---- the plan in terms of the fields -------------------------------------

  function SegmentOf(h: Header): (segs: seq<Segment>) {
    if h.Load() then [Segment(offset := h.offset, filesz := h.filesz, memsz := h.memsz, vaddr := h.vaddr)] else []
  }

  /** The segments of the PT_LOAD headers, in order. */
  function Segments(ph: seq<Header>): (segs: seq<Segment>)
  {
    if ph == [] then [] else SegmentOf(ph[0]) + Segments(ph[1..])
  }

  predicate IsLeastStart(low: int, ph: seq<Header>) {
    && (exists h <- ph :: h.Load() && h.vaddr == low)
    && forall h <- ph :: h.Load() ==> low <= h.vaddr
  }

  predicate IsGreatestEnd(high: int, ph: seq<Header>) {
    && (exists h <- ph :: h.Load() && h.End() == high)
    && forall h <- ph :: h.Load() ==> h.End() <= high
  }

  /** What planning asks of a file, in terms of what is written in it. */
  predicate Plannable(e: Ehdr, ph: seq<Header>, size: nat) {
    && e.Wanted() && (forall h <- ph :: h.Sound(size)) && 1 <= |Segments(ph)| <= MAX_SEGMENTS
    && (forall h <- ph :: h.Load() ==> IMAGE_BASE <= h.vaddr && h.End() <= IMAGE_END)
    && exists h <- ph, g <- ph :: h.Load() && g.Load() && h.vaddr < g.End()
  }

  // ---- planning a written file ---------------------------------------------

  function Plain(h: Header): Phdr {
    Phdr(kind := h.kind, offset := h.offset, vaddr := h.vaddr, filesz := h.filesz, memsz := h.memsz)
  }

  function Plains(ph: seq<Header>): (hs: seq<Phdr>)
    ensures |hs| == |ph|
  {
    seq(|ph|, i requires 0 <= i < |ph| => Plain(ph[i]))
  }

  /** The header test on a written header: the fields wanted, and a table that seems to end inside the file. */
  lemma HeaderTest(m: Source, e: Ehdr)
    requires e.Ok() && EHDR_SIZE <= |m.file| < WORD && m.file[..EHDR_SIZE] == e.Write()
    ensures ValidHeader(m) <==> e.Wanted() && Wrap(e.phoff + e.phnum * PHDR_SIZE) <= |m.file|
  {
    EhdrRead(m, e);
    var f := m.file;
    assert f[..16][..7] == f[..7] && f[..7] == [f[0], f[1], f[2], f[3], f[4], f[5], f[6]];
    hide Source.Word, Source.Half, Ehdr.Write;
  }

  lemma HeadersRead(m: Source, e: Ehdr, ph: seq<Header>)
    requires Holds(m.file, e, ph)
    ensures Headers(m) == Plains(ph) && m.Word(24) == e.entry
    ensures ValidHeader(m) <==> e.Wanted()
  {
    EhdrRead(m, e);
    HeaderTest(m, e);
    TableRead(m, e.phoff, ph);
    hide Source.Word, Source.Half, Ehdr.Write, HoldsHeader, ValidHeader, Headers, Plains, Ehdr.Wanted;
  }

  lemma TableRead(m: Source, phoff: nat, ph: seq<Header>)
    requires m.Word(28) == phoff && m.Half(44) == |ph| && phoff + |ph| * PHDR_SIZE <= |m.file| < WORD
    requires forall i :: 0 <= i < |ph| ==> HoldsHeader(m.file, phoff, ph, i)
    ensures Headers(m) == Plains(ph)
  {
    hide Source.Word, Source.Half, HoldsHeader, PhdrAt, Plain;
    var hs, ps := Headers(m), Plains(ph);
    forall i | 0 <= i < |ph| ensures hs[i] == ps[i] {
      OneHeld(m, phoff, ph, i);
    }
  }

  lemma OneHeld(m: Source, phoff: nat, ph: seq<Header>, i: nat)
    requires i < |ph| && phoff + |ph| * PHDR_SIZE <= |m.file| < WORD && HoldsHeader(m.file, phoff, ph, i)
    ensures PhdrAt(m, phoff + i * PHDR_SIZE) == Plain(ph[i])
  {
    InTable(phoff, |ph|, i, PHDR_SIZE - 1);
    hide PhdrAt, Header.Write;
    HeaderRead(m, phoff + i * PHDR_SIZE, ph[i]);
  }

  /** Nothing below `low` starts, and `low` is where `was` said or where something starts. */
  predicate LowIs(low: int, was: int, ph: seq<Header>) {
    && low <= was && (low == was || exists h <- ph :: h.Load() && h.vaddr == low)
    && forall h <- ph :: h.Load() ==> low <= h.vaddr
  }

  predicate HighIs(high: int, was: int, ph: seq<Header>) {
    && was <= high && (high == was || exists h <- ph :: h.Load() && h.End() == high)
    && forall h <- ph :: h.Load() ==> h.End() <= high
  }

  predicate AllSound(ph: seq<Header>, size: nat) {
    forall h <- ph :: h.Sound(size)
  }

  lemma SoundCons(ph: seq<Header>, size: nat)
    requires ph != []
    ensures AllSound(ph, size) <==> ph[0].Sound(size) && AllSound(ph[1..], size)
  {
    assert ph == [ph[0]] + ph[1..];
  }

  lemma LowCons(low: int, was: int, ph: seq<Header>)
    requires ph != [] && LowIs(low, if ph[0].Load() then Min(ph[0].vaddr, was) else was, ph[1..])
    ensures LowIs(low, was, ph)
  {
    assert ph == [ph[0]] + ph[1..];
    if h :| h in ph[1..] && h.Load() && h.vaddr == low {
      assert h in ph;
    } else {
      assert ph[0] in ph;
    }
  }

  lemma HighCons(high: int, was: int, ph: seq<Header>)
    requires ph != [] && HighIs(high, if ph[0].Load() then Max(ph[0].End(), was) else was, ph[1..])
    ensures HighIs(high, was, ph)
  {
    assert ph == [ph[0]] + ph[1..];
    if h :| h in ph[1..] && h.Load() && h.End() == high {
      assert h in ph;
    } else {
      assert ph[0] in ph;
    }
  }

  lemma ScanStep(s: Scan, ph: seq<Header>, size: nat)
    requires ph != [] && |s.segs| <= MAX_SEGMENTS
    ensures var h, one := ph[0], ScanOne(s, Plain(ph[0]), size);
            && ScanAll(s, Plains(ph), size) == (if one == None then None else ScanAll(one.value, Plains(ph[1..]), size))
            && (one.Some? <==> h.Sound(size) && (h.Load() ==> |s.segs| < MAX_SEGMENTS))
            && (one.Some? ==>
                  && one.value.low == (if h.Load() then Min(h.vaddr, s.low) else s.low)
                  && one.value.high == (if h.Load() then Max(h.End(), s.high) else s.high)
                  && one.value.segs + Segments(ph[1..]) == s.segs + Segments(ph)
                  && |one.value.segs| <= MAX_SEGMENTS)
  {
    hide *;
    ScanRest(s, ph, size);
    OneIs(s, ph[0], size);
    SegmentsFrom(s.segs, ph);
  }

  lemma ScanRest(s: Scan, ph: seq<Header>, size: nat)
    requires ph != []
    ensures var one := ScanOne(s, Plain(ph[0]), size);
            ScanAll(s, Plains(ph), size) == if one == None then None else ScanAll(one.value, Plains(ph[1..]), size)
  {
    assert Plains(ph)[0] == Plain(ph[0]) && Plains(ph)[1..] == Plains(ph[1..]);
    hide ScanOne, Plain;
  }

  lemma OneIs(s: Scan, h: Header, size: nat)
    requires |s.segs| <= MAX_SEGMENTS
    ensures var one := ScanOne(s, Plain(h), size);
            && (one.Some? <==> h.Sound(size) && (h.Load() ==> |s.segs| < MAX_SEGMENTS))
            && (one.Some? ==>
                  && one.value.low == (if h.Load() then Min(h.vaddr, s.low) else s.low)
                  && one.value.high == (if h.Load() then Max(h.End(), s.high) else s.high)
                  && one.value.segs == s.segs + SegmentOf(h) && |one.value.segs| <= MAX_SEGMENTS)
  {
    hide Wrap;
  }

  lemma SegmentsFrom(segs: seq<Segment>, ph: seq<Header>)
    requires ph != []
    ensures segs + SegmentOf(ph[0]) + Segments(ph[1..]) == segs + Segments(ph)
  {
    hide SegmentOf;
  }

  lemma {:induction false} ScanIs(s: Scan, ph: seq<Header>, size: nat)
    requires |s.segs| <= MAX_SEGMENTS
    ensures var r := ScanAll(s, Plains(ph), size);
            && (r.Some? <==> AllSound(ph, size) && |s.segs| + |Segments(ph)| <= MAX_SEGMENTS)
            && (r.Some? ==> r.value.segs == s.segs + Segments(ph)
                            && LowIs(r.value.low, s.low, ph) && HighIs(r.value.high, s.high, ph))
    decreases |ph|
  {
    if ph == [] {
      assert ScanAll(s, Plains(ph), size) == Some(s) && s.segs + [] == s.segs;
    } else {
      ScanStep(s, ph, size);
      SoundCons(ph, size);
      SegmentsCons(ph);
      var r, one := ScanAll(s, Plains(ph), size), ScanOne(s, Plain(ph[0]), size);
      hide *;
      if one.Some? {
        ScanIs(one.value, ph[1..], size);
        if r.Some? {
          LowCons(r.value.low, s.low, ph);
          HighCons(r.value.high, s.high, ph);
        }
      }
    }
  }

  lemma SegmentsCons(ph: seq<Header>)
    requires ph != []
    ensures |Segments(ph)| == |Segments(ph[1..])| + if ph[0].Load() then 1 else 0
  {
  }

  /**
   * Planning a file laid out as the gABI says: the plan has its entry point, its PT_LOAD headers' segments in order,
   * the least of their starts as base, and the greatest of their (32-bit) ends as end; there is one exactly when the
   * fields are what the loader asks for.
   */
  lemma PlanOfFile(m: Source, e: Ehdr, ph: seq<Header>)
    requires Holds(m.file, e, ph)
    ensures Prepare(m).Some? <==> Plannable(e, ph, |m.file|)
    ensures Prepare(m).Some? ==>
              var p := Prepare(m).value;
              p.entry == e.entry && p.segs == Segments(ph) && IsLeastStart(p.base, ph) && IsGreatestEnd(p.base + p.size, ph)
  {
    HeadersRead(m, e, ph);
    ScanIs(START, ph, |m.file|);
    hide Holds, Headers, Plains, ValidHeader, ScanAll, Wrap, Ehdr.Wanted;
    var r := ScanAll(START, Plains(ph), |m.file|);
    if r.Some? {
      LoadsAre(ph);
    }
  }

  /** There is a segment exactly if there is a PT_LOAD header. */
  lemma {:induction false} LoadsAre(ph: seq<Header>)
    ensures Segments(ph) != [] <==> exists h <- ph :: h.Load()
    decreases |ph|
  {
    if ph != [] {
      LoadsAre(ph[1..]);
      assert ph == [ph[0]] + ph[1..];
    }
  }

  // ---- the image in terms of the fields ------------------------------------

  /** No PT_LOAD header's sums wrap, and no two of them claim the same file-backed address. */
  predicate Tidy(ph: seq<Header>) {
    && (forall h <- ph :: h.Load() ==> h.vaddr + h.memsz < WORD && h.offset + h.filesz < WORD)
    && Disjoint(Segments(ph))
  }

  predicate Backs(h: Header, a: int) {
    h.Load() && h.vaddr <= a < h.vaddr + h.filesz
  }

  /** The bytes at the addresses the headers back are the file's, and all others are zero. */
  ghost predicate ImageIs(region: seq<Byte>, f: seq<Byte>, ph: seq<Header>) {
    && |region| == IMAGE_MAX
    && (forall h, a :: h in ph && Backs(h, a) ==>
          IMAGE_BASE <= a < IMAGE_END && h.offset + h.filesz <= |f|
          && region[a - IMAGE_BASE] == f[h.offset + (a - h.vaddr)])
    && forall a :: IMAGE_BASE <= a < IMAGE_END && Unbacked(ph, a) ==> region[a - IMAGE_BASE] == 0
  }

  predicate Unbacked(ph: seq<Header>, a: int) {
    forall h <- ph :: !Backs(h, a)
  }

  lemma {:induction false} SegmentIn(ph: seq<Header>, h: Header)
    requires h in ph && h.Load()
    ensures Segment(offset := h.offset, filesz := h.filesz, memsz := h.memsz, vaddr := h.vaddr) in Segments(ph)
    decreases |ph|
  {
    if h != ph[0] {
      assert ph == [ph[0]] + ph[1..];
      SegmentIn(ph[1..], h);
    }
  }

  lemma {:induction false} HeaderOf(ph: seq<Header>, g: Segment) returns (h: Header)
    requires g in Segments(ph)
    ensures h in ph && h.Load()
            && g == Segment(offset := h.offset, filesz := h.filesz, memsz := h.memsz, vaddr := h.vaddr)
    decreases |ph|
  {
    if g in SegmentOf(ph[0]) {
      h := ph[0];
    } else {
      assert g in Segments(ph[1..]);
      h := HeaderOf(ph[1..], g);
      assert ph == [ph[0]] + ph[1..];
    }
  }

  lemma TidySegments(ph: seq<Header>)
    requires Tidy(ph)
    ensures Disjoint(Segments(ph)) && forall g <- Segments(ph) :: g.NoWrap()
  {
    hide Segments, Disjoint;
    forall g | g in Segments(ph) ensures g.NoWrap() {
      var h := HeaderOf(ph, g);
    }
  }

  /** Loading a planned file whose headers are tidy gives the image its headers describe. */
  lemma ImageOfFile(m: Source, e: Ehdr, ph: seq<Header>)
    requires Holds(m.file, e, ph) && Plannable(e, ph, |m.file|) && Tidy(ph)
    ensures Loadable(Segments(ph), m.file)
    ensures ImageIs(LoadSegments(Zeros(IMAGE_MAX), Segments(ph), m.file), m.file, ph)
  {
    PlanOfFile(m, e, ph);
    assert |m.file| < WORD;
    TidySegments(ph);
    PreparedImage(m);
    hide *;
    ImageFromSegments(LoadSegments(Zeros(IMAGE_MAX), Segments(ph), m.file), m.file, ph);
  }

  lemma ImageFromSegments(region: seq<Byte>, f: seq<Byte>, ph: seq<Header>)
    requires |region| == IMAGE_MAX && Loadable(Segments(ph), f) && Realises(region, Segments(ph), f)
    ensures ImageIs(region, f, ph)
  {
    var segs := Segments(ph);
    hide Segments;
    forall h, a | h in ph && Backs(h, a)
      ensures IMAGE_BASE <= a < IMAGE_END && h.offset + h.filesz <= |f|
              && region[a - IMAGE_BASE] == f[h.offset + (a - h.vaddr)]
    {
      SegmentIn(ph, h);
      var g := Segment(offset := h.offset, filesz := h.filesz, memsz := h.memsz, vaddr := h.vaddr);
      var k :| 0 <= k < |segs| && segs[k] == g;
      assert g.Covers(a) && region[a - IMAGE_BASE] == segs[k].At(f, a);
    }
    forall a | IMAGE_BASE <= a < IMAGE_END && Unbacked(ph, a) ensures region[a - IMAGE_BASE] == 0 {
      forall k | 0 <= k < |segs| ensures !segs[k].Covers(a) {
        var h := HeaderOf(ph, segs[k]);
        assert !Backs(h, a);
      }
      assert Uncovered(segs, a);
    }
  }

  // ---- there is such a file ------------------------------------------------

  function Table(ph: seq<Header>): (b: seq<Byte>)
    ensures |b| == |ph| * PHDR_SIZE
  {
    seq(|ph| * PHDR_SIZE, x requires 0 <= x < |ph| * PHDR_SIZE => ph[x / PHDR_SIZE].Write()[x % PHDR_SIZE])
  }

  /** The header, the program headers right behind it, and the rest. */
  function WriteFile(e: Ehdr, ph: seq<Header>, rest: seq<Byte>): (f: seq<Byte>)
    requires e.Ok()
  {
    e.Write() + Table(ph) + rest
  }

  lemma WrittenHolds(e: Ehdr, ph: seq<Header>, rest: seq<Byte>)
    requires e.Ok() && e.phoff == EHDR_SIZE && e.phnum == |ph| && |WriteFile(e, ph, rest)| < WORD
    ensures Holds(WriteFile(e, ph, rest), e, ph)
  {
    hide Ehdr.Write, HoldsHeader, Table;
    var f := WriteFile(e, ph, rest);
    assert f[..EHDR_SIZE] == e.Write();
    forall i | 0 <= i < |ph| ensures HoldsHeader(f, e.phoff, ph, i) {
      HeaderWritten(e.Write(), ph, rest, i);
    }
  }

  lemma HeaderWritten(e: seq<Byte>, ph: seq<Header>, rest: seq<Byte>, i: nat)
    requires i < |ph|
    ensures HoldsHeader(e + Table(ph) + rest, |e|, ph, i)
  {
    hide Header.Write;
    var at, f, b := |e| + i * PHDR_SIZE, e + Table(ph) + rest, ph[i].Write();
    InTable(|e|, |ph|, i, PHDR_SIZE - 1);
    forall j | 0 <= j < PHDR_SIZE ensures f[at + j] == b[j] {
      var x := i * PHDR_SIZE + j;
      assert x / PHDR_SIZE == i && x % PHDR_SIZE == j;
      assert f[|e| + x] == Table(ph)[x];
    }
    assert f[at..at + PHDR_SIZE] == b;
  }
}
