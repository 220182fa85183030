// Paths, file contents and the sectors read, on an ISO 9660 volume (kernel/fs.c).

module IsoPath {
  import opened Bytes
  import opened Iso

  // ---- components ----------------------------------------------------------

  function SkipSlashes(p: seq<Byte>): (r: seq<Byte>)
    ensures |r| <= |p| && (r != [] ==> r[0] != SLASH)
  {
    if p != [] && p[0] == SLASH then SkipSlashes(p[1..]) else p
  }

  datatype Part = End | TooLong | Part(name: seq<Byte>, rest: seq<Byte>)

  /** The next component, in a buffer of 64 characters. */
  function NextPart(p: seq<Byte>): (r: Part)
    ensures r.Part? ==> 0 < |r.name| < NAME_BUF && |r.rest| < |p| && (r.rest != [] ==> r.rest[0] == SLASH)
  {
    var q := SkipSlashes(p);
    if q == [] then End
    else
      var n := UpTo(q, SLASH);
      if n >= NAME_BUF then TooLong else Part(q[..n], q[n..])
  }

  lemma {:induction false} SkipAppend(p: seq<Byte>, x: seq<Byte>)
    ensures SkipSlashes(p + x) == if SkipSlashes(p) == [] then SkipSlashes(x) else SkipSlashes(p) + x
  {
    if p == [] {
      assert p + x == x;
    } else if p[0] == SLASH {
      assert (p + x)[1..] == p[1..] + x;
      SkipAppend(p[1..], x);
    }
  }

  lemma {:induction false} UpToAppend(p: seq<Byte>, x: seq<Byte>)
    requires x == [] || x[0] == SLASH
    ensures UpTo(p + x, SLASH) == UpTo(p, SLASH)
  {
    if p == [] {
      assert p + x == x;
    } else if p[0] != SLASH {
      assert (p + x)[1..] == p[1..] + x;
      UpToAppend(p[1..], x);
    }
  }

  lemma NextAppend(p: seq<Byte>, x: seq<Byte>)
    requires x == [] || x[0] == SLASH
    ensures NextPart(p + x) == match NextPart(p)
                               case End => NextPart(x)
                               case TooLong => TooLong
                               case Part(w, rest) => Part(w, rest + x)
  {
    SkipAppend(p, x);
    var q := SkipSlashes(p);
    if q != [] {
      UpToAppend(q, x);
      var n := UpTo(q, SLASH);
      assert SkipSlashes(p + x) == q + x;
      assert (q + x)[..n] == q[..n] && (q + x)[n..] == q[n..] + x;
    }
  }

  lemma NextAfterSlash(q: seq<Byte>)
    ensures NextPart([SLASH] + q) == NextPart(q)
  {
    assert ([SLASH] + q)[1..] == q;
  }

  // ---- resolution ----------------------------------------------------------

  datatype Resolved = Done(loc: Loc, dir: bool) | Failed | Hung

  predicate Sound(l: Loc, volume: U32) {
    Valid(l.lba, l.size, volume)
  }

  /** The loop of `iso_resolve_path` from directory `cur` on. */
  function Go(d: Disk, volume: U32, cur: Loc, p: seq<Byte>): (r: Resolved)
    decreases |p|
  {
    match NextPart(p)
    case End => Done(cur, true)
    case TooLong => Failed
    case Part(w, rest) =>
      match FindChild(d, cur, w)
      case Miss => Failed
      case Lost => Hung
      case Hit(c) =>
        if rest == [] then if Sound(c, volume) then Done(c, c.Dir()) else Failed
        else if !c.Dir() || !Sound(c, volume) then Failed
        else Go(d, volume, c, rest)
  }

  function ResolvePath(d: Disk, p: seq<Byte>): Resolved {
    match ReadVolume(d)
    case None => Failed
    case Some(v) => if !Sound(v.root, v.sectors) then Failed else Go(d, v.sectors, v.root, p)
  }

  lemma GoIs(d: Disk, volume: U32, cur: Loc, p: seq<Byte>)
    ensures var n := NextPart(p);
            Go(d, volume, cur, p)
            == if n.End? then Done(cur, true) else if n.TooLong? then Failed
               else Step(d, volume, FindChild(d, cur, n.name), n.rest)
  {
    hide NextPart, FindChild;
  }

  /** The walk after a component was looked up. */
  function Step(d: Disk, volume: U32, f: Found, rest: seq<Byte>): Resolved {
    match f
    case Miss => Failed
    case Lost => Hung
    case Hit(c) =>
      if rest == [] then if Sound(c, volume) then Done(c, c.Dir()) else Failed
      else if !c.Dir() || !Sound(c, volume) then Failed
      else Go(d, volume, c, rest)
  }

  /** Resolution composes: `p/q` is `q` from the directory that `p` resolves to. */
  lemma {:induction false} GoComposes(d: Disk, volume: U32, cur: Loc, p: seq<Byte>, q: seq<Byte>)
    ensures Go(d, volume, cur, p + [SLASH] + q)
            == match Go(d, volume, cur, p)
               case Done(c, dir) => if dir then Go(d, volume, c, q) else Failed
               case other => other
    decreases |p|
  {
    hide Go, NextPart, SkipSlashes, FindChild, Sound;
    var x := [SLASH] + q;
    assert p + [SLASH] + q == p + x;
    NextAppend(p, x);
    NextAfterSlash(q);
    GoIs(d, volume, cur, p);
    GoIs(d, volume, cur, p + x);
    match NextPart(p)
    case End => GoIs(d, volume, cur, q);
    case TooLong =>
    case Part(w, rest) =>
      match FindChild(d, cur, w) {
        case Hit(c) =>
          GoIs(d, volume, c, q);
          GoIs(d, volume, c, x);
          if rest == [] {
            assert rest + x == x;
          } else {
            GoComposes(d, volume, c, rest, q);
            assert rest + [SLASH] + q == rest + x;
          }
        case _ =>
      }
  }

  /** What a path resolves to passed the extent test, and so did every directory on the way. */
  lemma {:induction false} GoSound(d: Disk, volume: U32, cur: Loc, p: seq<Byte>)
    requires Sound(cur, volume)
    ensures Go(d, volume, cur, p).Done? ==> Sound(Go(d, volume, cur, p).loc, volume)
    decreases |p|
  {
    match NextPart(p)
    case Part(w, rest) =>
      match FindChild(d, cur, w) {
        case Hit(c) =>
          if rest != [] && Sound(c, volume) {
            GoSound(d, volume, c, rest);
          }
        case _ =>
      }
    case _ =>
  }

  // ---- file contents -------------------------------------------------------

  datatype Read = Data(bytes: seq<Byte>) | NoFile | Never

  /** The loop of `iso_read_file_alloc`, which wants a file at the end and nothing after it. */
  function Seek(d: Disk, volume: U32, cur: Loc, p: seq<Byte>): (r: Resolved)
    decreases |p|
  {
    match NextPart(p)
    case End => Failed
    case TooLong => Failed
    case Part(w, rest) =>
      match FindChild(d, cur, w)
      case Miss => Failed
      case Lost => Hung
      case Hit(c) =>
        if rest == [] then if c.Dir() || !Sound(c, volume) then Failed else Done(c, false)
        else if !c.Dir() || !Sound(c, volume) then Failed
        else Seek(d, volume, c, rest)
  }

  lemma {:induction false} SeekIsGo(d: Disk, volume: U32, cur: Loc, p: seq<Byte>)
    ensures Seek(d, volume, cur, p)
            == var r := Go(d, volume, cur, p); if r.Done? && r.dir then Failed else r
    decreases |p|
  {
    match NextPart(p)
    case Part(w, rest) =>
      match FindChild(d, cur, w) {
        case Hit(c) =>
          if rest != [] {
            SeekIsGo(d, volume, c, rest);
          }
        case _ =>
      }
    case _ =>
  }

  /** Where the copy loop stands: at a sector's start, or at the end. */
  predicate Boundary(l: Loc, done: nat) {
    done <= l.size && (done % SECTOR == 0 || done == l.size)
  }

  /** The copy loop from byte `done` on, sector by sector; `None` if a sector cannot be read. */
  function CopyFrom(d: Disk, l: Loc, done: nat): (r: Option<seq<Byte>>)
    requires Boundary(l, done)
    ensures r.Some? ==> |r.value| == l.size - done
    decreases l.size - done
  {
    if done == l.size then Some([])
    else
      var chunk := if l.size - done > SECTOR then SECTOR else l.size - done;
      match d(Wrap(l.lba + done / SECTOR))
      case None => None
      case Some(s) =>
        match CopyFrom(d, l, done + chunk)
        case None => None
        case Some(rest) => Some(s[..chunk] + rest)
  }

  /** `iso_read_file_alloc`, when the allocator has room for blocks of up to `room` bytes. */
  function ReadFile(d: Disk, p: seq<Byte>, room: nat): Read {
    if SkipSlashes(p) == [] then NoFile
    else
      match ReadVolume(d)
      case None => NoFile
      case Some(v) =>
        if !Sound(v.root, v.sectors) then NoFile
        else
          match Seek(d, v.sectors, v.root, p)
          case Hung => Never
          case Failed => NoFile
          case Done(l, _) =>
            if l.size > FILE_MAX || l.size + 1 > room then NoFile
            else
              match CopyFrom(d, l, 0)
              case None => NoFile
              case Some(bytes) => Data(bytes)
  }

  /** Byte `i` of an extent. */
  predicate ByteIs(d: Disk, l: Loc, i: nat, b: Byte) {
    var s := d(Wrap(l.lba + i / SECTOR));
    s.Some? && s.value[i % SECTOR] == b
  }

  predicate SectorOk(d: Disk, l: Loc, k: nat) {
    d(Wrap(l.lba + k)).Some?
  }

  /** The sectors of the extent from number `k` on can be read. */
  predicate Readable(d: Disk, l: Loc, k: nat) {
    forall j :: k <= j < Sectors(l.size) ==> SectorOk(d, l, j)
  }

  /** The extent's bytes from byte `done` on. */
  predicate Copied(d: Disk, l: Loc, done: nat, bytes: seq<Byte>) {
    done + |bytes| == l.size && forall j :: 0 <= j < |bytes| ==> ByteIs(d, l, done + j, bytes[j])
  }

  lemma ChunkCopied(d: Disk, l: Loc, k: nat, s: Sector, chunk: nat, rest: seq<Byte>)
    requires d(Wrap(l.lba + k)) == Some(s) && chunk <= SECTOR && k * SECTOR + chunk <= l.size
    requires Copied(d, l, k * SECTOR + chunk, rest)
    ensures Copied(d, l, k * SECTOR, s[..chunk] + rest)
  {
    var done, bytes := k * SECTOR, s[..chunk] + rest;
    forall j | 0 <= j < |bytes| ensures ByteIs(d, l, done + j, bytes[j]) {
      if j < chunk {
        assert (done + j) / SECTOR == k && (done + j) % SECTOR == j;
      } else {
        assert ByteIs(d, l, done + chunk + (j - chunk), rest[j - chunk]);
      }
    }
  }

  lemma ReadableStep(d: Disk, l: Loc, k: nat)
    requires k < Sectors(l.size)
    ensures Readable(d, l, k) <==> SectorOk(d, l, k) && Readable(d, l, k + 1)
  {
  }

  function Chunk(l: Loc, done: nat): (r: nat)
    requires done < l.size
    ensures 0 < r <= SECTOR && done + r <= l.size
  {
    if l.size - done > SECTOR then SECTOR else l.size - done
  }

  lemma ChunkStep(d: Disk, l: Loc, done: nat)
    requires Boundary(l, done) && done < l.size
    ensures Boundary(l, done + Chunk(l, done))
    ensures var s, rest := d(Wrap(l.lba + done / SECTOR)), CopyFrom(d, l, done + Chunk(l, done));
            CopyFrom(d, l, done) == if s == None || rest == None then None else Some(s.value[..Chunk(l, done)] + rest.value)
  {
  }

  /** The copy of sector number `k`, the last one perhaps in part. */
  lemma SectorStep(d: Disk, l: Loc, k: nat)
    requires k * SECTOR < l.size
    ensures Boundary(l, k * SECTOR) && k < Sectors(l.size)
    ensures var done := k * SECTOR; var chunk := Chunk(l, done);
            && Boundary(l, done + chunk)
            && (chunk < SECTOR ==> CopyFrom(d, l, done + chunk) == Some([]) && Copied(d, l, done + chunk, [])
                                   && Readable(d, l, k + 1))
            && (chunk == SECTOR ==> done + chunk == (k + 1) * SECTOR)
            && var s, rest := d(Wrap(l.lba + k)), CopyFrom(d, l, done + chunk);
               CopyFrom(d, l, done) == if s == None || rest == None then None else Some(s.value[..chunk] + rest.value)
  {
    SectorCount(l, k);
    ChunkStep(d, l, k * SECTOR);
    hide Wrap;
  }

  lemma {:induction false} CopyIs(d: Disk, l: Loc, k: nat)
    requires k * SECTOR <= l.size
    ensures Boundary(l, k * SECTOR) && (CopyFrom(d, l, k * SECTOR).Some? <==> Readable(d, l, k))
    ensures CopyFrom(d, l, k * SECTOR).Some? ==> Copied(d, l, k * SECTOR, CopyFrom(d, l, k * SECTOR).value)
    decreases l.size - k * SECTOR
  {
    var done := k * SECTOR;
    hide Readable, Copied, CopyFrom, Sectors, Wrap, SectorOk, Boundary;
    if done == l.size {
      CopyEnds(d, l, k);
    } else {
      SectorStep(d, l, k);
      var chunk := Chunk(l, done);
      if chunk == SECTOR {
        CopyIs(d, l, k + 1);
      }
      ReadableStep(d, l, k);
      SectorOkIs(d, l, k);
      var s, rest := d(Wrap(l.lba + k)), CopyFrom(d, l, done + chunk);
      if s.Some? && rest.Some? {
        ChunkCopied(d, l, k, s.value, chunk, rest.value);
      }
    }
  }

  lemma CopyEnds(d: Disk, l: Loc, k: nat)
    requires k * SECTOR == l.size
    ensures Boundary(l, l.size) && CopyFrom(d, l, l.size) == Some([]) && Readable(d, l, k) && Copied(d, l, l.size, [])
  {
    SectorCount(l, k);
  }

  lemma SectorOkIs(d: Disk, l: Loc, k: nat)
    ensures SectorOk(d, l, k) <==> d(Wrap(l.lba + k)).Some?
  {
  }

  lemma SectorCount(l: Loc, k: nat)
    requires k * SECTOR <= l.size
    ensures k <= Sectors(l.size)
    ensures (k == Sectors(l.size) <==> k * SECTOR == l.size)
    ensures k * SECTOR < l.size < (k + 1) * SECTOR ==> Sectors(l.size) == k + 1
    ensures (k * SECTOR) / SECTOR == k
  {
  }

  /**
   * Reading a file gives exactly the bytes of the extent that resolution finds; it does so if and only if the path
   * resolves to a file of at most two megabytes, there is room for it, and the disk gives every sector of it.
   */
  lemma ReadsExtent(d: Disk, p: seq<Byte>, room: nat)
    ensures var r, at := ReadFile(d, p, room), ResolvePath(d, p);
            && (r.Data? <==> at.Done? && !at.dir && at.loc.size <= FILE_MAX && at.loc.size < room
                             && Readable(d, at.loc, 0))
            && (r.Data? ==> Copied(d, at.loc, 0, r.bytes))
            && (r == Never ==> at == Hung)
  {
    var v := ReadVolume(d);
    if v.Some? && Sound(v.value.root, v.value.sectors) {
      SeekIsGo(d, v.value.sectors, v.value.root, p);
      if SkipSlashes(p) == [] {
        SlashesGo(d, v.value.sectors, v.value.root, p);
      }
      var at := ResolvePath(d, p);
      hide ReadVolume, Sound, Go, Seek, CopyFrom, Readable, Copied;
      if at.Done? {
        CopyIs(d, at.loc, 0);
      }
    }
  }

  lemma SlashesGo(d: Disk, volume: U32, cur: Loc, p: seq<Byte>)
    requires SkipSlashes(p) == []
    ensures Go(d, volume, cur, p) == Done(cur, true)
  {
  }

  // ---- the sectors read ----------------------------------------------------

  /** The sectors a search reads. */
  function FindReads(d: Disk, dir: Loc, name: seq<Byte>, offset: U32): (r: set<U32>)
    decreases WORD - offset
  {
    if offset >= dir.size then {}
    else
      var slot := SlotAt(d, dir, offset);
      var here := {Lba(dir, offset)};
      if slot.Bad? || (slot.Record? && !slot.rec.Dot() && Matches(slot.rec, name)) then here
      else
        var next := NextOffset(offset, slot);
        OffsetGrows(d, dir, offset);
        if next == 0 then here else here + FindReads(d, dir, name, next)
  }

  /** The sectors resolution reads below the volume descriptor. */
  function GoReads(d: Disk, volume: U32, cur: Loc, p: seq<Byte>): (r: set<U32>)
    decreases |p|
  {
    match NextPart(p)
    case Part(w, rest) =>
      FindReads(d, cur, w, 0)
      + (match FindChild(d, cur, w)
         case Hit(c) =>
           if rest != [] && c.Dir() && Sound(c, volume) then GoReads(d, volume, c, rest) else {}
         case _ => {})
    case _ => {}
  }

  /** The directories the path leads through, and what it ends at, claim at most 2^32 - 2048 bytes each. */
  ghost predicate Modest(d: Disk, volume: U32, cur: Loc, p: seq<Byte>)
    decreases |p|
  {
    && cur.size <= MAX_EXTENT
    && match NextPart(p)
       case Part(w, rest) =>
         (match FindChild(d, cur, w)
          case Hit(c) =>
            if rest == [] then c.size <= MAX_EXTENT else c.Dir() && Sound(c, volume) ==> Modest(d, volume, c, rest)
          case _ => true)
       case _ => true
  }

  lemma OffsetInside(dir: Loc, volume: U32, offset: U32)
    requires Within(dir.lba, dir.size, volume) && dir.size <= MAX_EXTENT && offset < dir.size
    ensures Lba(dir, offset) == dir.lba + offset / SECTOR < volume
  {
    assert offset / SECTOR < Sectors(dir.size);
  }

  lemma {:induction false} FindReadsInside(d: Disk, dir: Loc, name: seq<Byte>, offset: U32, volume: U32)
    requires Within(dir.lba, dir.size, volume) && dir.size <= MAX_EXTENT && offset <= MAX_EXTENT
    ensures forall l :: l in FindReads(d, dir, name, offset) ==> dir.lba <= l < volume
    decreases WORD - offset
  {
    if offset < dir.size {
      OffsetInside(dir, volume, offset);
      var slot := SlotAt(d, dir, offset);
      if !slot.Bad? {
        OffsetGrows(d, dir, offset);
        FindReadsInside(d, dir, name, NextOffset(offset, slot), volume);
      }
    }
  }

  /**
   * Every sector resolution reads after the volume descriptor lies inside the volume, no walk hangs, and what the path
   * resolves to is inside the volume too, if the records the path leads through are of sizes the extent test can judge.
   */
  lemma {:induction false} ReadsStayInside(d: Disk, volume: U32, cur: Loc, p: seq<Byte>)
    requires Sound(cur, volume) && Modest(d, volume, cur, p)
    ensures forall l :: l in GoReads(d, volume, cur, p) ==> l < volume
    ensures var r := Go(d, volume, cur, p);
            r != Hung && (r.Done? ==> Within(r.loc.lba, r.loc.size, volume) && r.loc.size <= MAX_EXTENT)
    decreases |p|
  {
    ValidIs(cur.lba, cur.size, volume);
    match NextPart(p)
    case Part(w, rest) =>
      FindReadsInside(d, cur, w, 0, volume);
      WalkEnds(d, cur, w, 0);
      match FindChild(d, cur, w) {
        case Hit(c) =>
          ValidIs(c.lba, c.size, volume);
          if rest != [] && c.Dir() && Sound(c, volume) {
            ReadsStayInside(d, volume, c, rest);
          }
        case _ =>
      }
    case _ =>
  }

  /** So do the sectors of the file itself. */
  lemma FileReadsInside(d: Disk, p: seq<Byte>, i: nat)
    requires ResolvePath(d, p).Done? && i < ResolvePath(d, p).loc.size
    requires ReadVolume(d).Some? && var v := ReadVolume(d).value; Modest(d, v.sectors, v.root, p)
    ensures var l := ResolvePath(d, p).loc;
            Wrap(l.lba + i / SECTOR) == l.lba + i / SECTOR < ReadVolume(d).value.sectors
  {
    var v := ReadVolume(d).value;
    ReadsStayInside(d, v.sectors, v.root, p);
    OffsetInside(ResolvePath(d, p).loc, v.sectors, i);
  }

  // ---- an extent that comes round ------------------------------------------

  /** Some disk makes the walk of an extent go round for ever, if and only if the extent is above 2^32 - 2048 bytes. */
  lemma HangsExactly(dir: Loc, name: seq<Byte>)
    ensures (exists d: Disk :: FindChild(d, dir, name) == Lost) <==> dir.size > MAX_EXTENT
  {
    if dir.size > MAX_EXTENT {
      BlankComesRound(BlankDisk(), dir, name, 0);
      assert FindChild(BlankDisk(), dir, name) == Lost;
    } else {
      forall d: Disk ensures FindChild(d, dir, name) != Lost {
        WalkEnds(d, dir, name, 0);
      }
    }
  }

  /** Where no extent's end can leave the volume, no search does. */
  lemma {:induction false} FindReadsNear(d: Disk, dir: Loc, name: seq<Byte>, offset: U32, volume: U32)
    requires dir.lba + 0x20_0000 <= volume
    ensures forall l :: l in FindReads(d, dir, name, offset) ==> l < volume
    decreases WORD - offset
  {
    assert Lba(dir, offset) == dir.lba + offset / SECTOR < volume;
    if offset < dir.size {
      var slot := SlotAt(d, dir, offset);
      if !slot.Bad? {
        OffsetGrows(d, dir, offset);
        var next := NextOffset(offset, slot);
        hide Lba, SlotAt, NextOffset;
        if next != 0 {
          FindReadsNear(d, dir, name, next, volume);
        }
      }
    }
  }

  /** A search of a blank extent comes to every one of its sectors. */
  lemma {:induction false} BlankReads(d: Disk, dir: Loc, name: seq<Byte>, p: nat, q: nat)
    requires p <= q <= 0x1F_FFFF && q * SECTOR < dir.size && forall o: U32 :: SlotAt(d, dir, o) == Padding
    ensures Wrap(dir.lba + q) in FindReads(d, dir, name, p * SECTOR)
    decreases q - p
  {
    var offset := p * SECTOR;
    assert SlotAt(d, dir, offset) == Padding && offset / SECTOR == p;
    if p < q {
      assert NextOffset(offset, Padding) == (p + 1) * SECTOR;
      OffsetGrows(d, dir, offset);
      BlankReads(d, dir, name, p + 1, q);
    }
  }

  function BlankDisk(): (d: Disk)
    ensures forall dir: Loc, o: U32 :: SlotAt(d, dir, o) == Padding
  {
    lba => Some(seq(SECTOR, i => 0))
  }

  /**
   * In a directory that passes the extent test, no search on any disc reads outside the volume, if and only if its
   * size is one the test can judge, or 2^21 sectors fit the volume from its start. Otherwise a blank disc does.
   */
  lemma ReadsInsideExactly(dir: Loc, volume: U32)
    requires Sound(dir, volume)
    ensures (forall d: Disk, name :: ReadsInside(d, dir, name, volume))
            <==> dir.size <= MAX_EXTENT || dir.lba + 0x20_0000 <= volume
    ensures dir.size > MAX_EXTENT && volume < dir.lba + 0x20_0000 ==> volume in FindReads(BlankDisk(), dir, [], 0)
  {
    ValidIs(dir.lba, dir.size, volume);
    if dir.size <= MAX_EXTENT || dir.lba + 0x20_0000 <= volume {
      forall d: Disk, name ensures ReadsInside(d, dir, name, volume) {
        if dir.size <= MAX_EXTENT {
          FindReadsInside(d, dir, name, 0, volume);
        } else {
          FindReadsNear(d, dir, name, 0, volume);
        }
      }
    } else {
      BlankReads(BlankDisk(), dir, [], 0, volume - dir.lba);
      assert !ReadsInside(BlankDisk(), dir, [], volume);
    }
  }

  predicate ReadsInside(d: Disk, dir: Loc, name: seq<Byte>, volume: U32) {
    forall l :: l in FindReads(d, dir, name, 0) ==> l < volume
  }

  /** A volume descriptor in sector 16 whose root directory starts at sector 17 and claims `size` bytes. */
  ghost predicate Describes(s: Sector, size: U32, sectors: U32) {
    && s[0] == 1 && s[1..6] == [67, 68, 48, 48, 49] && s[6] == 1 && s[156] >= 34
    && Word(s, 158) == 17 && Word(s, 166) == size && Word(s, 80) == sectors
  }

  /** On such a disc, blank but for its descriptor, resolving any component never ends. */
  lemma BlankDiscHangs(s: Sector, size: U32, sectors: U32, p: seq<Byte>)
    requires Describes(s, size, sectors) && size > MAX_EXTENT && sectors > 17 && NextPart(p).Part?
    ensures ResolvePath(lba => if lba == 16 then Some(s) else Some(seq(SECTOR, i => 0)), p) == Hung
  {
    var d: Disk := lba => if lba == 16 then Some(s) else Some(seq(SECTOR, i => 0));
    var v := ReadVolume(d).value;
    ValidIs(17, size, sectors);
    forall o: U32 ensures SlotAt(d, v.root, o) == Padding {
      assert 17 <= Lba(v.root, o);
    }
    BlankComesRound(d, v.root, NextPart(p).name, 0);
    GoIs(d, sectors, v.root, p);
  }

  /** There is such a descriptor. */
  lemma DescriptorExists(size: U32, sectors: U32) returns (s: Sector)
    ensures Describes(s, size, sectors)
  {
    var a := Blit(Blit(Blit(Zeros(SECTOR), 158, EncodeWord(17)), 166, EncodeWord(size)), 80, EncodeWord(sectors));
    s := a[0 := 1][1 := 67][2 := 68][3 := 48][4 := 48][5 := 49][6 := 1][156 := 34];
    WordRoundTrip(17);
    WordRoundTrip(size);
    WordRoundTrip(sectors);
    assert s[158..162] == EncodeWord(17) && s[166..170] == EncodeWord(size) && s[80..84] == EncodeWord(sectors);
  }
}
