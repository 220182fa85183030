// The reader's loops over its scratch sector and name buffers (kernel/fs.c).

module IsoLoops {
  import opened Bytes
  import opened Iso
  import opened IsoPath

  /** `storage_read` of one sector into the scratch buffer. */
  method StorageRead(d: Disk, lba: U32, scratch: array<Byte>) returns (ok: bool)
    requires scratch.Length == SECTOR
    modifies scratch
    ensures ok == d(lba).Some? && (ok ==> scratch[..] == d(lba).value)
  {
    var s := d(lba);
    if s == None {
      return false;
    }
    forall i | 0 <= i < SECTOR {
      scratch[i] := s.value[i];
    }
    ok := true;
  }

  /** The inner loop: one entry's characters, lower-cased, as far as the buffer leaves room for a terminator. */
  method GatherName(rec: seq<Byte>, off: nat, entryLen: nat, out: array<Byte>, at: nat) returns (n: nat)
    requires 5 <= entryLen && off + entryLen <= |rec| && out.Length == NAME_BUF && at < NAME_BUF
    modifies out
    ensures at <= n < NAME_BUF
    ensures out[..n] == old(out[..at]) + Clip(LowerAll(rec[off + 5..off + entryLen]), NAME_BUF - 1 - at)
  {
    ghost var piece := LowerAll(rec[off + 5..off + entryLen]);
    var i := 5;
    n := at;
    while i < entryLen && n + 1 < NAME_BUF
      invariant 5 <= i <= entryLen && n < NAME_BUF && n == at + (i - 5)
      invariant out[..n] == old(out[..at]) + piece[..i - 5]
    {
      out[n] := Lower(rec[off + i]);
      assert piece[i - 5] == Lower(rec[off + i]);
      n, i := n + 1, i + 1;
    }
    assert piece[..i - 5] == Clip(piece, NAME_BUF - 1 - at);
  }

  lemma LowerAppend(a: seq<Byte>, b: seq<Byte>, n: nat)
    requires LowerAll(a) == a
    ensures var c := a + Clip(LowerAll(b), n); LowerAll(c) == c
  {
    var c := a + Clip(LowerAll(b), n);
    forall i | 0 <= i < |c| ensures Lower(c[i]) == c[i] {
      if i < |a| {
        assert LowerAll(a)[i] == Lower(a[i]);
      } else {
        assert c[i] == Lower(b[i - |a|]);
      }
    }
  }

  datatype Progress = Stop | More | Complete

  /** One entry of the system use area: not a name at all, one more part of it, or its last part. */
  method TakeEntry(rec: seq<Byte>, off: nat, out: array<Byte>, at: nat) returns (progress: Progress, n: nat)
    requires off + 4 <= |rec| && out.Length == NAME_BUF && at < NAME_BUF && LowerAll(out[..at]) == out[..at]
    modifies out
    ensures n < NAME_BUF && LowerAll(out[..n]) == out[..n]
    ensures progress == Stop ==> RockRidge(rec, off, old(out[..at])) == None
    ensures progress == Complete ==> RockRidge(rec, off, old(out[..at])) == Some(out[..n])
    ensures progress == More ==> rec[off + 2] >= 4 && off + rec[off + 2] <= |rec|
                                 && RockRidge(rec, off, old(out[..at])) == RockRidge(rec, off + rec[off + 2], out[..n])
  {
    n := at;
    var entryLen := rec[off + 2];
    if entryLen < 4 || off + entryLen > |rec| {
      return Stop, n;
    }
    if rec[off] == 78 && rec[off + 1] == 77 && entryLen >= 5 {
      var flags := rec[off + 4];
      if flags / 2 % 4 != 0 {
        return Stop, n;
      }
      LowerAppend(out[..at], rec[off + 5..off + entryLen], NAME_BUF - 1 - at);
      hide LowerAll, Clip;
      n := GatherName(rec, off, entryLen, out, at);
      if flags % 2 == 0 && n > 0 {
        return Complete, n;
      }
    }
    progress := More;
  }

  method Terminate(out: array<Byte>, n: nat)
    requires n < out.Length
    modifies out
    ensures out[..n] == old(out[..n]) && out[n] == 0
  {
    out[n] := 0;
  }

  /** `iso_try_read_rock_ridge_name`: gathers the name in `out`, and says how long it is, or -1. */
  method ReadRockRidge(rec: Rec, out: array<Byte>) returns (n: int)
    requires rec.Ok() && out.Length == NAME_BUF
    modifies out
    ensures n >= 0 <==> rec.RockRidgeName().Some?
    ensures n >= 0 ==> n < NAME_BUF && out[..n] == rec.RockRidgeName().value && out[n] == 0
  {
    var off: nat, outLen: nat := SystemUse(rec.NameLen()), 0;
    if off >= rec.len {
      return -1;
    }
    var all := rec.bytes[..rec.len];
    ghost var whole := RockRidge(all, off, []);
    assert rec.RockRidgeName() == whole && out[..0] == [] && LowerAll([]) == [];
    RockRidgeOver(all);
    hide LowerAll, RockRidge, SystemUse;
    while off + 4 <= rec.len
      invariant outLen < NAME_BUF && LowerAll(out[..outLen]) == out[..outLen]
      invariant whole == RockRidge(all, off, out[..outLen])
      decreases rec.len - off
    {
      var progress;
      progress, outLen := TakeEntry(all, off, out, outLen);
      if progress == Stop {
        return -1;
      } else if progress == Complete {
        Terminate(out, outLen);
        return outLen;
      }
      off := off + all[off + 2];
    }
    n := -1;
  }

  lemma RockRidgeOver(rec: seq<Byte>)
    ensures forall off: nat, sofar: seq<Byte> ::
              off + 4 > |rec| && |sofar| < NAME_BUF && LowerAll(sofar) == sofar ==> RockRidge(rec, off, sofar) == None
  {
  }

  /** What the sector just read holds at the offset. */
  method SlotLoop(d: Disk, dir: Loc, offset: U32, scratch: array<Byte>) returns (slot: Slot)
    requires scratch.Length == SECTOR
    modifies scratch
    ensures slot == SlotAt(d, dir, offset)
  {
    var secOff := offset % SECTOR;
    var ok := StorageRead(d, Lba(dir, offset), scratch);
    if !ok {
      return Bad;
    }
    var recLen := scratch[secOff];
    if recLen == 0 {
      return Padding;
    }
    if secOff + recLen > SECTOR || recLen < 34 {
      return Bad;
    }
    slot := Record(Rec(scratch[secOff..], recLen));
  }

  /** The loop of `iso_find_child`, wherever it ends. */
  method FindChildLoop(d: Disk, dir: Loc, name: seq<Byte>, scratch: array<Byte>) returns (child: Found)
    requires scratch.Length == SECTOR && FindChild(d, dir, name) != Lost
    modifies scratch
    ensures child == FindChild(d, dir, name)
  {
    var offset: U32 := 0;
    while offset < dir.size
      invariant FindFrom(d, dir, name, offset) == FindChild(d, dir, name)
      decreases WORD - offset
    {
      var slot := SlotLoop(d, dir, offset, scratch);
      if slot.Bad? {
        return Miss;
      }
      OffsetGrows(d, dir, offset);
      if slot.Record? && !slot.rec.Dot() && Matches(slot.rec, name) {
        return Hit(slot.rec.Target());
      }
      offset := NextOffset(offset, slot);
    }
    child := Miss;
  }

  lemma RecordsStep(d: Disk, dir: Loc, offset: U32)
    requires offset < dir.size && RecordsFrom(d, dir, offset).1 != Circular
    ensures var slot := SlotAt(d, dir, offset); var next := NextOffset(offset, slot);
            if slot.Bad? then RecordsFrom(d, dir, offset) == ([], Broken)
            else
              && offset < next
              && var rest := RecordsFrom(d, dir, next);
                 RecordsFrom(d, dir, offset)
                 == (if slot.Record? && !slot.rec.Dot() then [slot.rec] + rest.0 else rest.0, rest.1)
  {
    var slot := SlotAt(d, dir, offset);
    if !slot.Bad? {
      OffsetGrows(d, dir, offset);
      hide SlotAt, NextOffset;
    }
  }

  function Entry(rec: Rec): DirEntry
    requires rec.Ok()
  {
    DirEntry(Listed(rec), rec.Target().Dir())
  }

  /** The entries for the first `seen` records, as many as there is room for. */
  predicate Collected(entries: seq<DirEntry>, recs: seq<Rec>, seen: nat, room: nat) {
    && seen <= |recs| && |entries| == (if seen < room then seen else room)
    && forall k :: 0 <= k < |entries| ==> recs[k].Ok() && entries[k] == Entry(recs[k])
  }

  /** One more entry, if there is room for it. */
  function Collect(entries: seq<DirEntry>, rec: Rec, room: nat): (r: seq<DirEntry>)
    requires rec.Ok()
  {
    if |entries| < room then entries + [Entry(rec)] else entries
  }

  lemma CollectStep(entries: seq<DirEntry>, recs: seq<Rec>, seen: nat, room: nat)
    requires Collected(entries, recs, seen, room) && seen < |recs| && recs[seen].Ok()
    ensures Collected(Collect(entries, recs[seen], room), recs, seen + 1, room)
  {
    hide Entry;
  }

  /** From `offset` on the walk passes the records from number `seen` on. */
  predicate Ahead(d: Disk, dir: Loc, offset: U32, recs: seq<Rec>, seen: nat, end: Ending) {
    seen <= |recs| && RecordsFrom(d, dir, offset) == (recs[seen..], end)
  }

  lemma ListStarts(d: Disk, dir: Loc, recs: seq<Rec>, end: Ending, room: nat)
    requires RecordsFrom(d, dir, 0) == (recs, end)
    ensures Ahead(d, dir, 0, recs, 0, end) && Collected([], recs, 0, room)
  {
    assert recs[0..] == recs;
    hide RecordsFrom;
  }

  lemma AheadBad(d: Disk, dir: Loc, offset: U32, recs: seq<Rec>, seen: nat, end: Ending)
    requires Ahead(d, dir, offset, recs, seen, end) && offset < dir.size && SlotAt(d, dir, offset).Bad?
    ensures end == Broken
  {
  }

  /** One record or padding further. */
  lemma AheadStep(d: Disk, dir: Loc, offset: U32, recs: seq<Rec>, seen: nat, end: Ending, slot: Slot)
    requires Ahead(d, dir, offset, recs, seen, end) && offset < dir.size && end != Circular
    requires slot == SlotAt(d, dir, offset) && !slot.Bad?
    ensures offset < NextOffset(offset, slot)
    ensures slot.Record? && !slot.rec.Dot() ==>
              seen < |recs| && recs[seen] == slot.rec && Ahead(d, dir, NextOffset(offset, slot), recs, seen + 1, end)
    ensures !(slot.Record? && !slot.rec.Dot()) ==> Ahead(d, dir, NextOffset(offset, slot), recs, seen, end)
  {
    RecordsStep(d, dir, offset);
    if slot.Record? && !slot.rec.Dot() {
      TailSplit(recs, seen, slot.rec, RecordsFrom(d, dir, NextOffset(offset, slot)).0);
    }
    hide RecordsFrom, SlotAt, NextOffset;
  }

  /** The loop of `iso_list_dir_entries`, wherever it ends. */
  method ListLoop(d: Disk, dir: Loc, room: nat, scratch: array<Byte>) returns (list: Option<seq<DirEntry>>)
    requires scratch.Length == SECTOR && RecordsFrom(d, dir, 0).1 != Circular
    modifies scratch
    ensures list == ListDir(d, dir, room)
  {
    ghost var recs, end := RecordsFrom(d, dir, 0).0, RecordsFrom(d, dir, 0).1;
    var offset: U32, entries: seq<DirEntry>, seen := 0, [], 0;
    hide *;
    ListStarts(d, dir, recs, end, room);
    while offset < dir.size
      invariant seen >= 0 && Ahead(d, dir, offset, recs, seen, end) && Collected(entries, recs, seen, room)
      decreases WORD - offset
    {
      var slot := SlotLoop(d, dir, offset, scratch);
      if slot.Bad? {
        AheadBad(d, dir, offset, recs, seen, end);
        ListBroken(d, dir, room);
        return None;
      }
      AheadStep(d, dir, offset, recs, seen, end, slot);
      if slot.Record? && !slot.rec.Dot() {
        CollectStep(entries, recs, seen, room);
        entries := Collect(entries, slot.rec, room);
        seen := seen + 1;
      }
      offset := NextOffset(offset, slot);
    }
    AllCollected(d, dir, offset, recs, seen, end, entries, room);
    list := Some(entries);
  }

  lemma AllCollected(d: Disk, dir: Loc, offset: U32, recs: seq<Rec>, seen: nat, end: Ending, entries: seq<DirEntry>,
                     room: nat)
    requires Ahead(d, dir, offset, recs, seen, end) && Collected(entries, recs, seen, room) && offset >= dir.size
    requires RecordsFrom(d, dir, 0) == (recs, end)
    ensures ListDir(d, dir, room) == Some(entries)
  {
    RecordsOver(d, dir, offset);
    assert seen == |recs|;
    hide RecordsFrom, Entry;
    ListIs(d, dir, room, entries);
  }

  lemma TailSplit<T>(s: seq<T>, k: nat, x: T, rest: seq<T>)
    requires k <= |s| && s[k..] == [x] + rest
    ensures k < |s| && s[k] == x && s[k + 1..] == rest
  {
    assert s[k..][0] == x && s[k..][1..] == rest;
  }

  lemma ListBroken(d: Disk, dir: Loc, room: nat)
    requires RecordsFrom(d, dir, 0).1 == Broken
    ensures ListDir(d, dir, room) == None
  {
  }

  lemma ListIs(d: Disk, dir: Loc, room: nat, entries: seq<DirEntry>)
    requires var (recs, end) := RecordsFrom(d, dir, 0);
             && end == Clean && |entries| == (if |recs| < room then |recs| else room)
             && forall k :: 0 <= k < |entries| ==> entries[k] == Entry(recs[k])
    ensures ListDir(d, dir, room) == Some(entries)
  {
    hide RecordsFrom;
    assert ListDir(d, dir, room).value == entries;
  }

  lemma RecordsOver(d: Disk, dir: Loc, offset: U32)
    requires offset >= dir.size
    ensures RecordsFrom(d, dir, offset) == ([], Clean)
  {
  }

  /** A component complete at a slash, or at the end of the path. */
  lemma CompStep(d: Disk, volume: U32, cur: Loc, comp: seq<Byte>, p: seq<Byte>)
    requires SLASH !in comp && 0 < |comp| < NAME_BUF && (p == [] || p[0] == SLASH)
    ensures Go(d, volume, cur, comp + p) == Step(d, volume, FindChild(d, cur, comp), p)
    ensures p != [] ==> forall c :: Go(d, volume, c, p) == Go(d, volume, c, p[1..])
  {
    CompThenSlash(comp, p);
    GoIs(d, volume, cur, comp + p);
    if p != [] {
      forall c ensures Go(d, volume, c, p) == Go(d, volume, c, p[1..]) {
        GoSkips(d, volume, c, p);
      }
    }
  }

  lemma SlashStep(d: Disk, volume: U32, cur: Loc, p: seq<Byte>)
    requires p != [] && p[0] == SLASH
    ensures Go(d, volume, cur, [] + p) == Go(d, volume, cur, [] + p[1..])
  {
    GoSkips(d, volume, cur, p);
    assert [] + p == p && [] + p[1..] == p[1..];
  }

  lemma LongStep(d: Disk, volume: U32, cur: Loc, comp: seq<Byte>, p: seq<Byte>)
    requires SLASH !in comp && |comp| == NAME_BUF - 1 && p != [] && p[0] != SLASH
    ensures Go(d, volume, cur, comp + p) == Failed
  {
    CompTooLong(comp, p);
    GoIs(d, volume, cur, comp + p);
  }

  /** The loop of `iso_resolve_path`, a character at a time, wherever it ends. */
  method ResolveLoop(d: Disk, path: seq<Byte>, scratch: array<Byte>) returns (r: Resolved)
    requires scratch.Length == SECTOR && ResolvePath(d, path) != Hung
    modifies scratch
    ensures r == ResolvePath(d, path)
  {
    var v := ReadVolume(d);
    if v == None || !Sound(v.value.root, v.value.sectors) {
      return Failed;
    }
    r := GoLoop(d, v.value.sectors, v.value.root, path, scratch);
  }

  method GoLoop(d: Disk, volume: U32, root: Loc, path: seq<Byte>, scratch: array<Byte>) returns (r: Resolved)
    requires scratch.Length == SECTOR && Go(d, volume, root, path) != Hung
    modifies scratch
    ensures r == Go(d, volume, root, path)
  {
    hide Go, Sound, FindFrom;
    var cur, p := root, path;
    var comp: seq<Byte> := [];
    assert comp + p == path;
    while p != []
      invariant SLASH !in comp && |comp| < NAME_BUF
      invariant Go(d, volume, cur, comp + p) == Go(d, volume, root, path)
      decreases |p|
    {
      if p[0] == SLASH {
        if comp == [] {
          SlashStep(d, volume, cur, p);
        } else {
          CompStep(d, volume, cur, comp, p);
          var child := FindChildLoop(d, cur, comp, scratch);
          if !child.Hit? || !child.loc.Dir() || !Sound(child.loc, volume) {
            return Failed;
          }
          cur, comp := child.loc, [];
          assert [] + p[1..] == p[1..];
        }
      } else {
        if |comp| + 1 >= NAME_BUF {
          LongStep(d, volume, cur, comp, p);
          return Failed;
        }
        assert comp + [p[0]] + p[1..] == comp + p;
        comp := comp + [p[0]];
      }
      p := p[1..];
    }
    assert comp + p == comp;
    if comp == [] {
      GoNothing(d, volume, cur);
      return Done(cur, true);
    }
    CompStep(d, volume, cur, comp, []);
    assert comp + [] == comp;
    var child := FindChildLoop(d, cur, comp, scratch);
    if !child.Hit? || !Sound(child.loc, volume) {
      return Failed;
    }
    r := Done(child.loc, child.loc.Dir());
  }

  lemma GoNothing(d: Disk, volume: U32, cur: Loc)
    ensures Go(d, volume, cur, []) == Done(cur, true)
  {
    assert SkipSlashes([]) == [];
    GoIs(d, volume, cur, []);
  }

  lemma CompThenSlash(comp: seq<Byte>, p: seq<Byte>)
    requires SLASH !in comp && 0 < |comp| < NAME_BUF && (p == [] || p[0] == SLASH)
    ensures NextPart(comp + p) == Part(comp, p)
  {
    assert comp[0] in comp && SkipSlashes(comp) == comp;
    NoneThere(comp, SLASH);
    assert NextPart(comp) == Part(comp, []);
    NextAppend(comp, p);
    assert [] + p == p;
  }

  lemma CompTooLong(comp: seq<Byte>, p: seq<Byte>)
    requires SLASH !in comp && |comp| == NAME_BUF - 1 && p != [] && p[0] != SLASH
    ensures NextPart(comp + p) == TooLong
  {
    assert comp[0] in comp && SkipSlashes(comp + p) == comp + p;
    UpToPast(comp, p);
  }

  lemma {:induction false} UpToPast(s: seq<Byte>, p: seq<Byte>)
    requires SLASH !in s && p != [] && p[0] != SLASH
    ensures UpTo(s + p, SLASH) > |s|
  {
    if s == [] {
      assert s + p == p;
    } else {
      assert s[0] in s && (s + p)[1..] == s[1..] + p;
      UpToPast(s[1..], p);
    }
  }

  lemma GoSkips(d: Disk, volume: U32, cur: Loc, p: seq<Byte>)
    requires p != [] && p[0] == SLASH
    ensures Go(d, volume, cur, p) == Go(d, volume, cur, p[1..])
  {
    assert p == [SLASH] + p[1..];
    NextAfterSlash(p[1..]);
    GoIs(d, volume, cur, p);
    GoIs(d, volume, cur, p[1..]);
  }

  /** What is still to come, after the bytes copied. */
  ghost predicate Continues(whole: Option<seq<Byte>>, before: seq<Byte>, rest: Option<seq<Byte>>) {
    (whole.Some? <==> rest.Some?) && (rest.Some? ==> whole.value == before + rest.value)
  }

  lemma ContinueWith(whole: Option<seq<Byte>>, before: seq<Byte>, piece: seq<Byte>, all: Option<seq<Byte>>,
                     rest: Option<seq<Byte>>)
    requires Continues(whole, before, all) && all == if rest == None then None else Some(piece + rest.value)
    ensures Continues(whole, before + piece, rest) && (rest == None ==> whole == None)
  {
    assert rest.Some? ==> before + (piece + rest.value) == before + piece + rest.value;
  }

  /** The copy loop of `iso_read_file_alloc`, into a block of `size` + 1 bytes. */
  method CopyLoop(d: Disk, l: Loc, buf: array<Byte>, scratch: array<Byte>) returns (ok: bool)
    requires scratch.Length == SECTOR && buf.Length == l.size + 1 && buf != scratch
    modifies buf, scratch
    ensures ok <==> CopyFrom(d, l, 0).Some?
    ensures ok ==> buf[..l.size] == CopyFrom(d, l, 0).value && buf[l.size] == 0
  {
    var copied := 0;
    ghost var whole := CopyFrom(d, l, 0);
    assert forall rest: seq<Byte> :: [] + rest == rest;
    assert Continues(whole, buf[..0], whole);
    while copied < l.size
      invariant copied <= l.size && Boundary(l, copied)
      invariant Continues(whole, buf[..copied], CopyFrom(d, l, copied))
      decreases l.size - copied
    {
      var chunk := if l.size - copied > SECTOR then SECTOR else l.size - copied;
      assert chunk == Chunk(l, copied);
      ChunkStep(d, l, copied);
      ghost var before, here, rest := buf[..copied], CopyFrom(d, l, copied), CopyFrom(d, l, copied + chunk);
      hide CopyFrom, Continues, Boundary;
      ok := StorageRead(d, Wrap(l.lba + copied / SECTOR), scratch);
      if !ok {
        ContinueWith(whole, before, [], None, None);
        return;
      }
      ghost var piece := scratch[..chunk];
      CopyChunk(buf, copied, scratch, chunk);
      assert buf[..copied + chunk] == before + piece;
      ContinueWith(whole, before, piece, here, rest);
      copied := copied + chunk;
    }
    ghost var bytes := buf[..l.size];
    buf[l.size] := 0;
    assert buf[..l.size] == bytes && bytes + [] == bytes;
    ok := true;
  }

  method CopyChunk(buf: array<Byte>, at: nat, scratch: array<Byte>, chunk: nat)
    requires at + chunk <= buf.Length && chunk <= scratch.Length && buf != scratch
    modifies buf
    ensures buf[..at] == old(buf[..at]) && buf[at..at + chunk] == scratch[..chunk]
  {
    var i := 0;
    while i < chunk
      invariant i <= chunk && buf[..at] == old(buf[..at]) && buf[at..at + i] == scratch[..i]
    {
      buf[at + i] := scratch[i];
      assert buf[at..at + i + 1] == buf[at..at + i] + [scratch[i]];
      i := i + 1;
    }
  }
}
