// ELF planning and loading (kernel/elf.c): program headers to a load plan, a plan to the
// bytes of the one user image region.  Field offsets are those of the System V ABI (gABI),
// chapters 4 "ELF Header" and 5 "Program Header".

module Elf {
  import opened Bytes

  const IMAGE_BASE := 0x0030_0000
  const IMAGE_MAX := 128 * 1024
  const IMAGE_END := IMAGE_BASE + IMAGE_MAX
  const MAX_SEGMENTS := 8
  const PT_LOAD := 1
  const EHDR_SIZE := 52
  const PHDR_SIZE := 32

  datatype Phdr = Phdr(kind: U32, offset: U32, vaddr: U32, filesz: U32, memsz: U32)

  /** A segment of a plan: `PT_LOAD` headers keep only these fields. */
  datatype Segment = Segment(offset: U32, filesz: U32, memsz: U32, vaddr: U32) {
    predicate NoWrap() {
      vaddr + memsz < WORD && offset + filesz < WORD
    }
    predicate InRegion() {
      IMAGE_BASE <= vaddr && vaddr + memsz <= IMAGE_END
    }
    predicate Covers(a: int) {
      vaddr <= a < vaddr + filesz
    }
    /** A program header that promises what a load needs: enough memory, and bytes that are in the file. */
    predicate InFile(file: seq<Byte>) {
      filesz <= memsz && offset + filesz <= |file|
    }
    function At(file: seq<Byte>, a: int): Byte
      requires InFile(file) && Covers(a)
    {
      file[offset + (a - vaddr)]
    }
  }

  datatype Plan = Plan(entry: U32, base: U32, size: U32, segs: seq<Segment>)

  // ---- headers -------------------------------------------------------------

  /**
   * What the planner sees at a 32-bit offset from the file's first byte: the file, and beyond it whatever lies
   * there in memory. `data + e_phoff` is computed on 32-bit words and may leave the file.
   */
  datatype Source = Source(file: seq<Byte>, beyond: U32 -> Byte) {
    function At(x: int): Byte {
      var o := Wrap(x);
      if o < |file| then file[o] else beyond(o)
    }
    function Half(x: int): U32 {
      var lo: int, hi: int := At(x), At(x + 1);
      lo + 0x100 * hi
    }
    function Word(x: int): U32 {
      DecodeWord([At(x), At(x + 1), At(x + 2), At(x + 3)])
    }
  }

  predicate ValidHeader(m: Source) {
    var f := m.file;
    && |f| >= EHDR_SIZE
    && f[0] == 0x7F && f[1] == 0x45 && f[2] == 0x4C && f[3] == 0x46
    && f[4] == 1 && f[5] == 1 && f[6] == 1
    && m.Half(16) == 2 && m.Half(18) == 3 && m.Word(20) == 1
    && m.Half(42) == PHDR_SIZE && m.Half(44) != 0
    && Wrap(TableEnd(m)) <= |f|
  }

  /** The end of the program header table, before it is cut to 32 bits. */
  function TableEnd(m: Source): nat {
    m.Word(28) + m.Half(44) * PHDR_SIZE
  }

  function PhdrAt(m: Source, x: int): Phdr {
    Phdr(m.Word(x), m.Word(x + 4), m.Word(x + 8), m.Word(x + 16), m.Word(x + 20))
  }

  function Headers(m: Source): (hs: seq<Phdr>) {
    seq(m.Half(44), i requires 0 <= i < m.Half(44) => PhdrAt(m, m.Word(28) + i * PHDR_SIZE))
  }

  predicate ByteInside(m: Source, i: nat, b: nat) {
    Wrap(m.Word(28) + i * PHDR_SIZE + b) < |m.file|
  }

  /** Header `i` lies in the file. */
  predicate HeaderInside(m: Source, i: nat) {
    forall b :: 0 <= b < PHDR_SIZE ==> ByteInside(m, i, b)
  }

  /** The table's end is compared with the file's only after it may have wrapped: it is inside unless it did. */
  lemma HeadersInsideExactly(m: Source)
    requires ValidHeader(m) && |m.file| < WORD
    ensures (forall i :: 0 <= i < m.Half(44) ==> HeaderInside(m, i)) <==> TableEnd(m) < WORD
  {
    var at, n := m.Word(28), m.Half(44);
    if TableEnd(m) < WORD {
      forall i, b | 0 <= i < n && 0 <= b < PHDR_SIZE ensures ByteInside(m, i, b) {
        InTable(at, n, i, b);
      }
    } else {
      // the byte just below the top of the address space belongs to some header, and no file reaches it
      var top := WORD - 1 - at;
      assert !ByteInside(m, top / PHDR_SIZE, top % PHDR_SIZE);
      assert !HeaderInside(m, top / PHDR_SIZE);
    }
  }

  /** A file of nothing but a header, which puts its one program header at the top of the address space. */
  function Stray(): (f: seq<Byte>)
    ensures |f| == EHDR_SIZE
  {
    seq(EHDR_SIZE, i requires 0 <= i < EHDR_SIZE => StrayByte(i))
  }

  function StrayByte(i: nat): Byte {
    match i
    case 0 => 0x7F
    case 1 => 0x45
    case 2 => 0x4C
    case 3 => 0x46
    case 4 => 1
    case 5 => 1
    case 6 => 1
    case 16 => 2
    case 18 => 3
    case 20 => 1
    case 28 => 0xE0
    case 29 => 0xFF
    case 30 => 0xFF
    case 31 => 0xFF
    case 42 => 32
    case 44 => 1
    case _ => 0
  }

  lemma StrayAt(m: Source, i: nat)
    requires m.file == Stray() && i + 3 < EHDR_SIZE
    ensures m.At(i) == StrayByte(i) && m.file[i] == StrayByte(i)
    ensures var a: int, b: int := StrayByte(i), StrayByte(i + 1); m.Half(i) == a + 0x100 * b
    ensures m.Word(i) == DecodeWord([StrayByte(i), StrayByte(i + 1), StrayByte(i + 2), StrayByte(i + 3)])
  {
    hide DecodeWord, StrayByte;
    forall j: nat | j < EHDR_SIZE ensures m.At(j) == StrayByte(j) {
      assert Wrap(j) == j;
    }
  }

  lemma StrayIdent(m: Source)
    requires m.file == Stray()
    ensures var f := m.file;
            f[0] == 0x7F && f[1] == 0x45 && f[2] == 0x4C && f[3] == 0x46 && f[4] == 1 && f[5] == 1 && f[6] == 1
  {
  }

  lemma StrayFields(m: Source)
    requires m.file == Stray()
    ensures m.Half(16) == 2 && m.Half(18) == 3 && m.Word(20) == 1
    ensures m.Word(28) == 0xFFFF_FFE0 && m.Half(42) == PHDR_SIZE && m.Half(44) == 1
  {
    StrayAt(m, 16);
    StrayAt(m, 18);
    StrayAt(m, 20);
    StrayAt(m, 28);
    StrayAt(m, 42);
    StrayAt(m, 44);
    hide Source.Word, Source.Half, Source.At, Stray;
  }

  /** The header test accepts it, and its program header is not in the file. */
  lemma OutsideHeaderAccepted(m: Source)
    requires m.file == Stray()
    ensures ValidHeader(m) && TableEnd(m) == WORD && !HeaderInside(m, 0)
  {
    StrayIdent(m);
    StrayFields(m);
    hide Source.Word, Source.Half, Source.At, Stray, StrayByte;
    assert !ByteInside(m, 0, 31);
  }

  lemma InTable(at: nat, n: nat, i: nat, b: nat)
    requires i < n && b < PHDR_SIZE
    ensures at + i * PHDR_SIZE + b < at + n * PHDR_SIZE
  {
  }

  // ---- planning ------------------------------------------------------------

  datatype Scan = Scan(low: U32, high: U32, segs: seq<Segment>)

  function Min(a: int, b: int): int { if a < b then a else b }
  function Max(a: int, b: int): int { if a > b then a else b }

  function Accept(s: Scan, h: Phdr): Scan {
    Scan(Min(h.vaddr, s.low), Max(Wrap(h.vaddr + h.memsz), s.high),
         s.segs + [Segment(h.offset, h.filesz, h.memsz, h.vaddr)])
  }

  function ScanOne(s: Scan, h: Phdr, size: nat): Option<Scan> {
    if h.kind != PT_LOAD then Some(s)
    else if h.memsz < h.filesz || Wrap(h.offset + h.filesz) > size then None
    else if |s.segs| >= MAX_SEGMENTS then None
    else Some(Accept(s, h))
  }

  function ScanAll(s: Scan, hs: seq<Phdr>, size: nat): (r: Option<Scan>)
    decreases |hs|
  {
    if hs == [] then Some(s)
    else match ScanOne(s, hs[0], size)
      case None => None
      case Some(s1) => ScanAll(s1, hs[1..], size)
  }

  const START := Scan(0xFFFF_FFFF, 0, [])

  function Finish(s: Scan, entry: U32): Option<Plan> {
    if s.segs == [] || s.low >= s.high then None
    else if s.low < IMAGE_BASE || s.high > IMAGE_END then None
    else if s.high - s.low > IMAGE_MAX then None
    else Some(Plan(entry, s.low, s.high - s.low, s.segs))
  }

  function MakePlan(hs: seq<Phdr>, entry: U32, size: nat): Option<Plan> {
    match ScanAll(START, hs, size)
    case None => None
    case Some(s) => Finish(s, entry)
  }

  function Prepare(m: Source): Option<Plan> {
    if !ValidHeader(m) then None else MakePlan(Headers(m), m.Word(24), |m.file|)
  }

  /** The loop of `elf_prepare_load_plan_from_vfs` over the program headers. */
  method ScanHeaders(hs: seq<Phdr>, entry: U32, size: nat) returns (plan: Option<Plan>)
    ensures plan == MakePlan(hs, entry, size)
  {
    var low: U32, high: U32, segs: seq<Segment> := 0xFFFF_FFFF, 0, [];
    var i := 0;
    while i < |hs|
      invariant 0 <= i <= |hs|
      invariant ScanAll(START, hs, size) == ScanAll(Scan(low, high, segs), hs[i..], size)
    {
      var h := hs[i];
      assert hs[i..][1..] == hs[i + 1..];
      i := i + 1;
      if h.kind != PT_LOAD {
        continue;
      }
      if h.memsz < h.filesz || Wrap(h.offset + h.filesz) > size || |segs| >= MAX_SEGMENTS {
        return None;
      }
      if h.vaddr < low {
        low := h.vaddr;
      }
      if Wrap(h.vaddr + h.memsz) > high {
        high := Wrap(h.vaddr + h.memsz);
      }
      segs := segs + [Segment(h.offset, h.filesz, h.memsz, h.vaddr)];
    }
    plan := Finish(Scan(low, high, segs), entry);
  }

  method PreparePlan(m: Source) returns (plan: Option<Plan>)
    ensures plan == Prepare(m)
  {
    if ValidHeader(m) {
      plan := ScanHeaders(Headers(m), m.Word(24), |m.file|);
    } else {
      plan := None;
    }
  }

  // ---- what a plan promises ------------------------------------------------

  /** Every segment was checked, and the bounds are the least start and the greatest (wrapped) end. */
  predicate ScanOk(s: Scan, size: nat) {
    && |s.segs| <= MAX_SEGMENTS
    && forall k :: 0 <= k < |s.segs| ==>
         var g := s.segs[k];
         && g.filesz <= g.memsz && Wrap(g.offset + g.filesz) <= size
         && s.low <= g.vaddr && Wrap(g.vaddr + g.memsz) <= s.high
  }

  lemma {:induction false} ScanKeeps(s: Scan, hs: seq<Phdr>, size: nat)
    requires ScanOk(s, size)
    ensures var r := ScanAll(s, hs, size); r.Some? ==> ScanOk(r.value, size)
    decreases |hs|
  {
    if hs != [] && ScanOne(s, hs[0], size).Some? {
      ScanKeeps(ScanOne(s, hs[0], size).value, hs[1..], size);
    }
  }

  lemma PlanOk(hs: seq<Phdr>, entry: U32, size: nat)
    requires MakePlan(hs, entry, size).Some?
    ensures var p := MakePlan(hs, entry, size).value;
            && ScanOk(Scan(p.base, p.base + p.size, p.segs), size)
            && IMAGE_BASE <= p.base && 0 < p.size && p.base + p.size <= IMAGE_END
  {
    ScanKeeps(START, hs, size);
  }

  /**
   * Planning bounds `vaddr + memsz` only after 32-bit wrap-around, so the accepted segments lie in
   * the reserved region, and in the plan's window, exactly when none of the sums wraps.
   */
  lemma AcceptedInsideRegion(hs: seq<Phdr>, entry: U32, size: nat)
    requires MakePlan(hs, entry, size).Some?
    ensures var p := MakePlan(hs, entry, size).value;
            && ((forall g <- p.segs :: g.InRegion()) <==> (forall g <- p.segs :: g.vaddr + g.memsz < WORD))
            && ((forall g <- p.segs :: g.vaddr + g.memsz < WORD) ==>
                  forall g <- p.segs :: p.base <= g.vaddr && g.vaddr + g.memsz <= p.base + p.size)
  {
    PlanOk(hs, entry, size);
    var p := MakePlan(hs, entry, size).value;
    forall g | g in p.segs
      ensures g.InRegion() <==> g.vaddr + g.memsz < WORD
      ensures g.vaddr + g.memsz < WORD ==> p.base <= g.vaddr && g.vaddr + g.memsz <= p.base + p.size
    {
      var k :| 0 <= k < |p.segs| && p.segs[k] == g;
    }
  }

  /** `offset + filesz` is compared with the file's size only after it may have wrapped, too. */
  lemma AcceptedInsideFile(hs: seq<Phdr>, entry: U32, file: seq<Byte>)
    requires |file| < WORD && MakePlan(hs, entry, |file|).Some?
    ensures var p := MakePlan(hs, entry, |file|).value;
            (forall g <- p.segs :: g.InFile(file)) <==> (forall g <- p.segs :: g.offset + g.filesz < WORD)
  {
    PlanOk(hs, entry, |file|);
    var p := MakePlan(hs, entry, |file|).value;
    forall g | g in p.segs ensures g.InFile(file) <==> g.offset + g.filesz < WORD {
      var k :| 0 <= k < |p.segs| && p.segs[k] == g;
    }
  }

  /** Headers that pass planning though the second segment lies at the top of the address space. */
  lemma OutsideRegionAccepted(entry: U32)
    ensures var hs := [Phdr(PT_LOAD, 0, IMAGE_BASE, 0, 0x1000), Phdr(PT_LOAD, 0, 0xFFFF_FFF0, 0x20, 0x20)];
            var p := MakePlan(hs, entry, 0x20);
            p.Some? && |p.value.segs| == 2 && !p.value.segs[1].InRegion()
  {
    var hs := [Phdr(PT_LOAD, 0, IMAGE_BASE, 0, 0x1000), Phdr(PT_LOAD, 0, 0xFFFF_FFF0, 0x20, 0x20)];
    var one := Accept(START, hs[0]);
    assert ScanAll(START, hs, 0x20) == ScanAll(one, hs[1..], 0x20);
    assert ScanAll(one, hs[1..], 0x20) == ScanAll(Accept(one, hs[1]), hs[1..][1..], 0x20);
  }

  /** And one whose bytes are not the file's. */
  lemma OutsideFileAccepted(entry: U32, file: seq<Byte>)
    requires 0x20 <= |file| < WORD
    ensures var p := MakePlan([Phdr(PT_LOAD, 0xFFFF_FFF0, IMAGE_BASE, 0x20, 0x20)], entry, |file|);
            p.Some? && |p.value.segs| == 1 && !p.value.segs[0].InFile(file)
  {
    var hs := [Phdr(PT_LOAD, 0xFFFF_FFF0, IMAGE_BASE, 0x20, 0x20)];
    assert ScanAll(START, hs, |file|) == ScanAll(Accept(START, hs[0]), hs[1..], |file|);
  }

  // ---- loading -------------------------------------------------------------

  /** What a program must satisfy for `elf_load_from_plan` to copy only file bytes into only the region. */
  predicate Loadable(segs: seq<Segment>, file: seq<Byte>) {
    forall k :: 0 <= k < |segs| ==> segs[k].InFile(file) && segs[k].InRegion()
  }

  /** What is planned can be loaded, exactly when neither kind of sum wraps. */
  lemma PlannedIsLoadable(hs: seq<Phdr>, entry: U32, file: seq<Byte>)
    requires |file| < WORD && MakePlan(hs, entry, |file|).Some?
    ensures var p := MakePlan(hs, entry, |file|).value; Loadable(p.segs, file) <==> forall g <- p.segs :: g.NoWrap()
  {
    AcceptedInsideRegion(hs, entry, |file|);
    AcceptedInsideFile(hs, entry, file);
    var p := MakePlan(hs, entry, |file|).value;
    hide MakePlan;
    if Loadable(p.segs, file) {
      forall g | g in p.segs ensures g.NoWrap() {
        var k :| 0 <= k < |p.segs| && p.segs[k] == g;
      }
    }
  }

  /** The region after copying the segments one by one, in order. */
  function LoadSegments(region: seq<Byte>, segs: seq<Segment>, file: seq<Byte>): (r: seq<Byte>)
    requires |region| == IMAGE_MAX && Loadable(segs, file)
    ensures |r| == IMAGE_MAX
    decreases |segs|
  {
    if segs == [] then region
    else
      var n := |segs| - 1;
      var g := segs[n];
      assert forall k :: 0 <= k < n ==> segs[..n][k] == segs[k];
      Blit(LoadSegments(region, segs[..n], file), g.vaddr - IMAGE_BASE, file[g.offset..g.offset + g.filesz])
  }

  /** Two segments that cover the same address give it the same byte. */
  ghost predicate Agree(segs: seq<Segment>, file: seq<Byte>)
    requires Loadable(segs, file)
  {
    forall j, k, a :: 0 <= j < k < |segs| && segs[j].Covers(a) && segs[k].Covers(a) ==>
      segs[j].At(file, a) == segs[k].At(file, a)
  }

  ghost predicate Uncovered(segs: seq<Segment>, a: int) {
    forall k :: 0 <= k < |segs| ==> !segs[k].Covers(a)
  }

  /** The image the program headers describe: file bytes where a segment covers, zero elsewhere. */
  ghost predicate Realises(region: seq<Byte>, segs: seq<Segment>, file: seq<Byte>)
    requires |region| == IMAGE_MAX && Loadable(segs, file)
  {
    && (forall k, a :: 0 <= k < |segs| && segs[k].Covers(a) ==> region[a - IMAGE_BASE] == segs[k].At(file, a))
    && (forall a :: IMAGE_BASE <= a < IMAGE_END && Uncovered(segs, a) ==> region[a - IMAGE_BASE] == 0)
  }

  /** The last segment covering an address decides its byte. */
  lemma {:induction false} LastCovers(segs: seq<Segment>, file: seq<Byte>, a: int) returns (k: int)
    requires Loadable(segs, file) && IMAGE_BASE <= a < IMAGE_END
    ensures -1 <= k < |segs| && forall j :: k < j < |segs| ==> !segs[j].Covers(a)
    ensures k >= 0 ==> segs[k].Covers(a)
    ensures LoadSegments(Zeros(IMAGE_MAX), segs, file)[a - IMAGE_BASE] == if k < 0 then 0 else segs[k].At(file, a)
    decreases |segs|
  {
    k := |segs| - 1;
    if segs != [] && !segs[k].Covers(a) {
      var n := k;
      assert forall j :: 0 <= j < n ==> segs[..n][j] == segs[j];
      k := LastCovers(segs[..n], file, a);
    }
  }

  /** Loading realises the headers' image exactly when overlapping segments agree. */
  lemma LoadRealises(segs: seq<Segment>, file: seq<Byte>)
    requires Loadable(segs, file)
    ensures Realises(LoadSegments(Zeros(IMAGE_MAX), segs, file), segs, file) <==> Agree(segs, file)
  {
    var r := LoadSegments(Zeros(IMAGE_MAX), segs, file);
    if Agree(segs, file) {
      forall k, a | 0 <= k < |segs| && segs[k].Covers(a)
        ensures r[a - IMAGE_BASE] == segs[k].At(file, a)
      {
        var l := LastCovers(segs, file, a);
      }
      forall a | IMAGE_BASE <= a < IMAGE_END && Uncovered(segs, a)
        ensures r[a - IMAGE_BASE] == 0
      {
        var l := LastCovers(segs, file, a);
      }
    }
    if Realises(r, segs, file) {
      forall j, k, a | 0 <= j < k < |segs| && segs[j].Covers(a) && segs[k].Covers(a)
        ensures segs[j].At(file, a) == segs[k].At(file, a)
      {
        assert r[a - IMAGE_BASE] == segs[j].At(file, a) && r[a - IMAGE_BASE] == segs[k].At(file, a);
      }
    }
  }

  /** Two segments that give one address different bytes: the second wins, and the first's header is not met. */
  lemma OverlapLoads(file: seq<Byte>)
    requires |file| >= 2 && file[0] != file[1]
    ensures var segs := [Segment(0, 1, 1, IMAGE_BASE), Segment(1, 1, 1, IMAGE_BASE)];
            Loadable(segs, file) && !Realises(LoadSegments(Zeros(IMAGE_MAX), segs, file), segs, file)
  {
    var segs := [Segment(0, 1, 1, IMAGE_BASE), Segment(1, 1, 1, IMAGE_BASE)];
    assert segs[0].Covers(IMAGE_BASE) && segs[1].Covers(IMAGE_BASE);
    LoadRealises(segs, file);
  }

  /** Non-overlapping segments agree, and then the order of the headers does not matter. */
  predicate Disjoint(segs: seq<Segment>) {
    forall j, k :: 0 <= j < k < |segs| ==>
      segs[j].vaddr + segs[j].filesz <= segs[k].vaddr || segs[k].vaddr + segs[k].filesz <= segs[j].vaddr
  }

  lemma LoadOrderIrrelevant(s1: seq<Segment>, s2: seq<Segment>, file: seq<Byte>)
    requires Loadable(s1, file) && Agree(s1, file)
    requires forall g :: g in s1 <==> g in s2
    ensures Loadable(s2, file)
    ensures LoadSegments(Zeros(IMAGE_MAX), s1, file) == LoadSegments(Zeros(IMAGE_MAX), s2, file)
  {
    forall k | 0 <= k < |s2| ensures s2[k].InFile(file) && s2[k].InRegion() {
      assert s2[k] in s1;
    }
    var r1, r2 := LoadSegments(Zeros(IMAGE_MAX), s1, file), LoadSegments(Zeros(IMAGE_MAX), s2, file);
    forall i | 0 <= i < IMAGE_MAX ensures r1[i] == r2[i] {
      var k1 := LastCovers(s1, file, i + IMAGE_BASE);
      var k2 := LastCovers(s2, file, i + IMAGE_BASE);
      if k2 >= 0 {
        assert s2[k2] in s1;
      }
      if k1 >= 0 {
        assert s1[k1] in s2;
      }
    }
  }

  /** From the file to the bytes of the region, for well-behaved headers. */
  lemma PreparedImage(m: Source)
    requires |m.file| < WORD && Prepare(m).Some? && Disjoint(Prepare(m).value.segs)
    requires forall g <- Prepare(m).value.segs :: g.NoWrap()
    ensures var segs := Prepare(m).value.segs;
            Loadable(segs, m.file) && Realises(LoadSegments(Zeros(IMAGE_MAX), segs, m.file), segs, m.file)
  {
    hide LoadSegments;
    PlannedIsLoadable(Headers(m), m.Word(24), m.file);
    LoadRealises(Prepare(m).value.segs, m.file);
  }

  method ZeroAll(a: array<Byte>)
    modifies a
    ensures a[..] == Zeros(a.Length)
  {
    for i := 0 to a.Length
      invariant forall j :: 0 <= j < i ==> a[j] == 0
    {
      a[i] := 0;
    }
  }

  method CopyIn(a: array<Byte>, at: nat, d: seq<Byte>)
    requires at + |d| <= a.Length
    modifies a
    ensures a[..] == Blit(old(a[..]), at, d)
  {
    for j := 0 to |d|
      invariant forall i :: 0 <= i < a.Length ==> a[i] == if at <= i < at + j then d[i - at] else old(a[i])
    {
      a[at + j] := d[j];
    }
  }

  /** The zeroing and copying loops of `elf_load_from_plan`, in place on the region. */
  method LoadInPlace(region: array<Byte>, segs: seq<Segment>, file: seq<Byte>)
    requires region.Length == IMAGE_MAX && Loadable(segs, file)
    modifies region
    ensures region[..] == LoadSegments(Zeros(IMAGE_MAX), segs, file)
  {
    ZeroAll(region);
    for i := 0 to |segs|
      invariant Loadable(segs[..i], file)
      invariant region[..] == LoadSegments(Zeros(IMAGE_MAX), segs[..i], file)
    {
      var g := segs[i];
      CopyIn(region, g.vaddr - IMAGE_BASE, file[g.offset..g.offset + g.filesz]);
      assert segs[..i + 1][..i] == segs[..i];
    }
    assert segs[..|segs|] == segs;
  }
}
