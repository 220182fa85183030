// The ISO 9660 reader (kernel/fs.c): directory records of ECMA-119 section 9.1, the primary volume descriptor of
// section 8.4, and the NM entry of RRIP (IEEE P1282) section 4.1.4.

module Iso {
  import opened Bytes

  const SECTOR := 2048
  const NAME_BUF := 64
  const FILE_MAX := 2 * 1024 * 1024
  const SLASH: Byte := 47

  /** The last size whose walk cannot run into the top of the 32-bit offset. */
  const MAX_EXTENT := WORD - SECTOR

  type Sector = s: seq<Byte> | |s| == SECTOR witness seq(SECTOR, i => 0)

  /** `storage_read` of one sector, or its failure. */
  type Disk = U32 -> Option<Sector>

  datatype Loc = Loc(lba: U32, size: U32, flags: Byte) {
    predicate Dir() {
      flags / 2 % 2 == 1
    }
  }

  // ---- names ---------------------------------------------------------------

  function Lower(c: Byte): Byte {
    if 65 <= c <= 90 then c + 32 else c
  }

  function LowerAll(s: seq<Byte>): (r: seq<Byte>)
    ensures |r| == |s|
  {
    seq(|s|, i requires 0 <= i < |s| => Lower(s[i]))
  }

  function Clip(s: seq<Byte>, n: nat): (r: seq<Byte>)
    ensures r <= s && |r| <= n && (|s| <= n ==> r == s)
  {
    if |s| <= n then s else s[..n]
  }

  /** Where the system use area of a record starts. */
  function SystemUse(nameLen: nat): nat {
    33 + nameLen + (if nameLen % 2 == 0 then 1 else 0)
  }

  /** The name entries from `off` on, with `sofar` already gathered; `None` if there is no complete one. */
  function RockRidge(rec: seq<Byte>, off: nat, sofar: seq<Byte>): (r: Option<seq<Byte>>)
    requires |sofar| < NAME_BUF && LowerAll(sofar) == sofar
    ensures r.Some? ==> 0 < |r.value| < NAME_BUF && LowerAll(r.value) == r.value
    decreases |rec| - off
  {
    if off + 4 > |rec| then None
    else
      var len := rec[off + 2];
      if len < 4 || off + len > |rec| then None
      else if rec[off] == 78 && rec[off + 1] == 77 && len >= 5 then
        var flags := rec[off + 4];
        if flags / 2 % 4 != 0 then None
        else
          var name := sofar + Clip(LowerAll(rec[off + 5..off + len]), NAME_BUF - 1 - |sofar|);
          if flags % 2 == 0 && name != [] then Some(name) else RockRidge(rec, off + len, name)
      else RockRidge(rec, off + len, sofar)
  }

  /** The plain name up to its version, without a final dot. */
  function Plain(name: seq<Byte>): (r: seq<Byte>)
    ensures r <= name
  {
    var n := UpTo(name, 59);
    if n > 0 && name[n - 1] == 46 then name[..n - 1] else name[..n]
  }

  function UpTo(name: seq<Byte>, c: Byte): (n: nat)
    ensures n <= |name| && (n < |name| ==> name[n] == c) && c !in name[..n]
  {
    if name == [] || name[0] == c then 0
    else
      var n := 1 + UpTo(name[1..], c);
      assert name[..n] == [name[0]] + name[1..][..n - 1];
      n
  }

  /**
   * A directory record: `bytes` runs from its start to the end of its sector, which is as far as the model follows a
   * name that is longer than its record; `len` is the record's own length.
   */
  datatype Rec = Rec(bytes: seq<Byte>, len: nat) {
    predicate Ok() {
      34 <= len <= |bytes| <= SECTOR
    }

    function NameLen(): nat
      requires Ok()
    {
      bytes[32]
    }

    function NameField(): seq<Byte>
      requires Ok()
    {
      Clip(bytes[33..], bytes[32])
    }

    function RockRidgeName(): (r: Option<seq<Byte>>)
      requires Ok()
      ensures r.Some? ==> 0 < |r.value| < NAME_BUF && LowerAll(r.value) == r.value
    {
      if SystemUse(NameLen()) >= len then None else RockRidge(bytes[..len], SystemUse(NameLen()), [])
    }

    /** The entries for the directory itself and its parent. */
    predicate Dot()
      requires Ok()
    {
      bytes[32] == 1 && bytes[33] <= 1
    }

    function Target(): Loc
      requires Ok()
    {
      Loc(Word(bytes, 2), Word(bytes, 10), bytes[25])
    }

    /** A plain name, up to its version, is free of NUL and at most 63 characters; a Rock Ridge name always will do. */
    predicate WellNamed()
      requires Ok()
    {
      RockRidgeName() == None ==> 0 !in Plain(NameField()) && |Plain(NameField())| < NAME_BUF
    }
  }

  /** `iso_record_name_matches`: the component, a C string, compared without regard to case. */
  predicate Matches(rec: Rec, component: seq<Byte>)
    requires rec.Ok()
  {
    match rec.RockRidgeName()
    case Some(name) => LowerAll(CString(name)) == LowerAll(component)
    case None => LowerAll(Plain(rec.NameField())) == LowerAll(component)
  }

  /** What a buffer of characters holds as a C string. */
  function CString(s: seq<Byte>): (r: seq<Byte>)
    ensures r <= s && 0 !in r && (0 !in s ==> r == s)
  {
    s[..UpTo(s, 0)]
  }

  /** `iso_record_name_copy` into 64 characters: the name a listing shows. */
  function Listed(rec: Rec): (r: seq<Byte>)
    requires rec.Ok()
    ensures |r| < NAME_BUF
  {
    match rec.RockRidgeName()
    case Some(name) => CString(name)
    case None => CString(Clip(LowerAll(Plain(rec.NameField())), NAME_BUF - 1))
  }

  /** Search and listing see the same name, in any letter case. */
  lemma MatchIsListed(rec: Rec, component: seq<Byte>)
    requires rec.Ok() && rec.WellNamed()
    ensures Matches(rec, component) <==> Listed(rec) == LowerAll(component)
  {
    match rec.RockRidgeName() {
      case Some(name) =>
        var n := UpTo(name, 0);
        assert LowerAll(name)[..n] == LowerAll(name[..n]);
      case None =>
        var plain := Plain(rec.NameField());
        forall i | 0 <= i < |plain| ensures LowerAll(plain)[i] != 0 {
          assert plain[i] != 0;
        }
    }
  }

  /** A component as a path can give it: a C string of at most 63 characters. */
  predicate IsComponent(c: seq<Byte>) {
    0 !in c && |c| < NAME_BUF
  }

  /** What a listing shows can be asked for, and is in lower case. */
  lemma ListedIsComponent(rec: Rec)
    requires rec.Ok()
    ensures IsComponent(Listed(rec)) && LowerAll(Listed(rec)) == Listed(rec)
  {
    var s := match rec.RockRidgeName() case Some(name) => name case None => Clip(LowerAll(Plain(rec.NameField())), NAME_BUF - 1);
    assert LowerAll(s) == s;
    var n := UpTo(s, 0);
    assert LowerAll(s)[..n] == LowerAll(s[..n]);
  }

  /** No component finds a record that is not well named. */
  lemma IllNamedIsLost(rec: Rec, component: seq<Byte>)
    requires rec.Ok() && !rec.WellNamed() && IsComponent(component)
    ensures !Matches(rec, component)
  {
    var plain := Plain(rec.NameField());
    if 0 in plain {
      var i :| 0 <= i < |plain| && plain[i] == 0;
      assert LowerAll(plain)[i] == 0;
      assert i < |component| ==> component[i] in component && LowerAll(component)[i] != 0;
    } else {
      assert |LowerAll(plain)| > |LowerAll(component)|;
    }
  }

  /**
   * Search and listing see the same name of a record, in any letter case, exactly when it is well named: a name of
   * more than 63 characters is listed cut, one with a NUL is listed up to it, and neither is found by that name.
   */
  lemma AgreesExactly(rec: Rec)
    requires rec.Ok()
    ensures (forall c :: 0 !in c ==> (Matches(rec, c) <==> Listed(rec) == LowerAll(c))) <==> rec.WellNamed()
    ensures !rec.WellNamed() ==> !Matches(rec, Listed(rec))
  {
    hide Matches, Listed, LowerAll;
    ListedIsComponent(rec);
    if rec.WellNamed() {
      forall c ensures Matches(rec, c) <==> Listed(rec) == LowerAll(c) {
        MatchIsListed(rec, c);
      }
    } else {
      IllNamedIsLost(rec, Listed(rec));
    }
  }

  /** A record with this plain name and no Rock Ridge entry. */
  function NamedRec(name: seq<Byte>): (rec: Rec)
    requires 0 < |name| <= 128
    ensures rec.Ok()
  {
    var len := SystemUse(|name|);
    Rec(seq(len, i requires 0 <= i < len => if i == 32 then |name| else if 33 <= i < 33 + |name| then name[i - 33] else 0), len)
  }

  /** 64 letters, and "A" with a NUL after it: records that are listed under names nobody finds them by. */
  lemma ListedNotFound()
    ensures var long, cut := NamedRec(seq(64, i => 65)), NamedRec([65, 0, 66]);
            && Listed(long) == seq(63, i => 97) && !Matches(long, Listed(long))
            && Listed(cut) == [97] && !Matches(cut, Listed(cut))
  {
    var a, b := seq(64, i => 65 as Byte), [65, 0, 66];
    NamedRecIs(a);
    NamedRecIs(b);
    AgreesExactly(NamedRec(a));
    AgreesExactly(NamedRec(b));
    hide Matches, NamedRec;
    assert a[63] == 65;
    assert Clip(LowerAll(a), 63) == seq(63, i => 97);
    assert LowerAll(b) == [97, 0, 98] && b[1] == 0;
    assert [97, 0, 98][..1] == [97];
  }

  lemma NamedRecIs(name: seq<Byte>)
    requires 0 < |name| <= 128 && 59 !in name && name[|name| - 1] != 46
    ensures var rec := NamedRec(name);
            rec.RockRidgeName() == None && rec.NameField() == name && Plain(rec.NameField()) == name
  {
    var rec := NamedRec(name);
    assert Clip(rec.bytes[33..], |name|) == name;
    NoneThere(name, 59);
  }

  lemma {:induction false} NoneThere(s: seq<Byte>, c: Byte)
    requires c !in s
    ensures UpTo(s, c) == |s|
  {
    if s != [] {
      assert s[0] in s;
      NoneThere(s[1..], c);
    }
  }

  function Word(s: seq<Byte>, at: nat): U32
    requires at + 4 <= |s|
  {
    DecodeWord(s[at..at + 4])
  }

  // ---- volume and extents --------------------------------------------------

  /** `iso_extent_valid`, on 32-bit words. */
  predicate Valid(lba: U32, size: U32, volume: U32) {
    var sectors := Wrap(size + (SECTOR - 1)) / SECTOR;
    volume != 0 && lba < volume && (sectors == 0 || (Wrap(lba + sectors) >= lba && Wrap(lba + sectors) <= volume))
  }

  /** The sectors an extent really has. */
  function Sectors(size: U32): nat {
    (size + (SECTOR - 1)) / SECTOR
  }

  predicate Within(lba: U32, size: U32, volume: U32) {
    lba < volume && lba + Sectors(size) <= volume
  }

  /** The test is exact, but for sizes whose rounding wraps, where it is exact only if it could not matter. */
  lemma ValidIs(lba: U32, size: U32, volume: U32)
    ensures Valid(lba, size, volume) == if size <= MAX_EXTENT then Within(lba, size, volume) else lba < volume
    ensures (Valid(lba, size, volume) <==> Within(lba, size, volume))
            <==> size <= MAX_EXTENT || lba >= volume || lba + 0x20_0000 <= volume
  {
    if size > MAX_EXTENT {
      assert Wrap(size + (SECTOR - 1)) == size + (SECTOR - 1) - WORD < SECTOR;
      assert Sectors(size) == 0x20_0000;
    } else {
      assert Sectors(size) <= 0x1F_FFFF;
    }
  }

  datatype Volume = Volume(root: Loc, sectors: U32)

  /** `iso_read_pvd_root`. */
  function ReadVolume(d: Disk): Option<Volume> {
    match d(16)
    case None => None
    case Some(s) =>
      if s[0] != 1 || s[6] != 1 || s[1..6] != [67, 68, 48, 48, 49] || s[156] < 34 then None
      else Some(Volume(Loc(Word(s, 158), Word(s, 166), s[181]), Word(s, 80)))
  }

  // ---- the directory walk --------------------------------------------------

  /** What the loop finds at an offset: a failure, padding to the next sector, or a record. */
  datatype Slot = Bad | Padding | Record(rec: Rec)

  function Lba(dir: Loc, offset: U32): U32 {
    Wrap(dir.lba + offset / SECTOR)
  }

  function SlotAt(d: Disk, dir: Loc, offset: U32): (r: Slot)
    ensures r.Record? ==> r.rec.Ok()
  {
    match d(Lba(dir, offset))
    case None => Bad
    case Some(s) =>
      var at := offset % SECTOR;
      var len := s[at];
      if len == 0 then Padding
      else if at + len > SECTOR || len < 34 then Bad
      else Record(Rec(s[at..], len))
  }

  lemma SlotFits(d: Disk, dir: Loc, offset: U32)
    ensures var r := SlotAt(d, dir, offset); r.Record? ==> offset % SECTOR + r.rec.len <= SECTOR
  {
  }

  /** The next offset, on 32-bit words. */
  function NextOffset(offset: U32, slot: Slot): U32 {
    if slot.Record? then Wrap(offset + slot.rec.len) else Wrap((offset / SECTOR + 1) * SECTOR)
  }

  /** The offset grows, except from the last sector the offset can name, where it starts again at zero. */
  lemma OffsetGrows(d: Disk, dir: Loc, offset: U32)
    requires !SlotAt(d, dir, offset).Bad?
    ensures var slot := SlotAt(d, dir, offset); var next := NextOffset(offset, slot);
            && (next == 0 || offset < next) && (offset < MAX_EXTENT ==> offset < next <= MAX_EXTENT)
            && (slot.Padding? ==> (next == 0 <==> offset >= MAX_EXTENT))
  {
    var q, at := offset / SECTOR, offset % SECTOR;
    SlotFits(d, dir, offset);
    assert offset == q * SECTOR + at && q <= 0x1F_FFFF;
    if offset >= MAX_EXTENT {
      assert q == 0x1F_FFFF;
    }
  }

  /** `Lost` is the loop that has come round to offset zero: it sees the same again, for ever. */
  datatype Found = Hit(loc: Loc) | Miss | Lost

  /** `iso_find_child` from an offset on. */
  function FindFrom(d: Disk, dir: Loc, name: seq<Byte>, offset: U32): (r: Found)
    decreases WORD - offset
  {
    if offset >= dir.size then Miss
    else
      var slot := SlotAt(d, dir, offset);
      if slot.Bad? then Miss
      else if slot.Record? && !slot.rec.Dot() && Matches(slot.rec, name) then Hit(slot.rec.Target())
      else
        var next := NextOffset(offset, slot);
        OffsetGrows(d, dir, offset);
        if next == 0 then Lost else FindFrom(d, dir, name, next)
  }

  function FindChild(d: Disk, dir: Loc, name: seq<Byte>): Found {
    FindFrom(d, dir, name, 0)
  }

  datatype Ending = Clean | Broken | Circular

  /** The records a complete walk passes, and how it ends. */
  function RecordsFrom(d: Disk, dir: Loc, offset: U32): (r: (seq<Rec>, Ending))
    ensures forall k :: 0 <= k < |r.0| ==> r.0[k].Ok()
    decreases WORD - offset
  {
    if offset >= dir.size then ([], Clean)
    else
      var slot := SlotAt(d, dir, offset);
      if slot.Bad? then ([], Broken)
      else
        var next := NextOffset(offset, slot);
        OffsetGrows(d, dir, offset);
        var (rest, end) := if next == 0 then ([], Circular) else RecordsFrom(d, dir, next);
        (if slot.Record? && !slot.rec.Dot() then [slot.rec] + rest else rest, end)
  }

  /** No walk of an extent below the top comes round, whatever the disk holds. */
  lemma {:induction false} WalkEnds(d: Disk, dir: Loc, name: seq<Byte>, offset: U32)
    requires dir.size <= MAX_EXTENT && offset <= MAX_EXTENT
    ensures FindFrom(d, dir, name, offset) != Lost && RecordsFrom(d, dir, offset).1 != Circular
    decreases WORD - offset
  {
    if offset < dir.size {
      var slot := SlotAt(d, dir, offset);
      if !slot.Bad? {
        OffsetGrows(d, dir, offset);
        WalkEnds(d, dir, name, NextOffset(offset, slot));
      }
    }
  }

  /** Above it, one that is all padding does. */
  lemma {:induction false} BlankComesRound(d: Disk, dir: Loc, name: seq<Byte>, offset: U32)
    requires dir.size > MAX_EXTENT && offset <= MAX_EXTENT && offset % SECTOR == 0
    requires forall o: U32 :: SlotAt(d, dir, o) == Padding
    ensures FindFrom(d, dir, name, offset) == Lost
    decreases WORD - offset
  {
    OffsetGrows(d, dir, offset);
    var next := NextOffset(offset, Padding);
    assert SlotAt(d, dir, offset) == Padding;
    if next != 0 {
      assert next % SECTOR == 0;
      BlankComesRound(d, dir, name, next);
    }
  }

  // ---- search and listing agree --------------------------------------------

  datatype DirEntry = DirEntry(name: seq<Byte>, dir: bool)

  /** `iso_list_dir_entries` with room for `room` entries. */
  function ListDir(d: Disk, dir: Loc, room: nat): (r: Option<seq<DirEntry>>)
  {
    var (recs, end) := RecordsFrom(d, dir, 0);
    if end != Clean then None
    else
      var n := if |recs| < room then |recs| else room;
      Some(seq(n, k requires 0 <= k < n => DirEntry(Listed(recs[k]), recs[k].Target().Dir())))
  }

  /** The first record that matches, or -1. */
  function FirstMatch(recs: seq<Rec>, name: seq<Byte>): (r: int)
    ensures -1 <= r < |recs|
  {
    FirstIndex(recs, (rec: Rec) => rec.Ok() && Matches(rec, name))
  }

  lemma FirstMatchCons(rec: Rec, recs: seq<Rec>, name: seq<Byte>)
    requires rec.Ok()
    ensures var r := FirstMatch(recs, name);
            FirstMatch([rec] + recs, name) == if Matches(rec, name) then 0 else if r < 0 then -1 else r + 1
  {
    assert ([rec] + recs)[1..] == recs;
    hide Matches;
  }

  /** Searching is finding the first matching record of the walk, with the walk's end if there is none. */
  lemma {:induction false} FindIsFirst(d: Disk, dir: Loc, name: seq<Byte>, offset: U32)
    ensures var (recs, end) := RecordsFrom(d, dir, offset);
            var k := FirstMatch(recs, name);
            FindFrom(d, dir, name, offset)
            == if k >= 0 then Hit(recs[k].Target()) else if end == Circular then Lost else Miss
    decreases WORD - offset
  {
    if offset < dir.size && !SlotAt(d, dir, offset).Bad? {
      var slot := SlotAt(d, dir, offset);
      var next := NextOffset(offset, slot);
      OffsetGrows(d, dir, offset);
      var rest := if next == 0 then [] else RecordsFrom(d, dir, next).0;
      if next != 0 {
        FindIsFirst(d, dir, name, next);
      }
      if slot.Record? && !slot.rec.Dot() {
        FirstMatchCons(slot.rec, rest, name);
      }
    }
  }

  /** The record the search stops at is the first one listed under the name; with none listed, it finds none. */
  ghost predicate SameRecord(recs: seq<Rec>, c: seq<Byte>)
    requires forall k :: 0 <= k < |recs| ==> recs[k].Ok()
  {
    var r, low := FirstMatch(recs, c), LowerAll(c);
    if r >= 0 then Listed(recs[r]) == low && forall j :: 0 <= j < r ==> Listed(recs[j]) != low
    else forall j :: 0 <= j < |recs| ==> Listed(recs[j]) != low
  }

  /** An earlier well-named record is listed under the same name. */
  predicate Shadowed(recs: seq<Rec>, k: int)
    requires 0 <= k < |recs| && forall i :: 0 <= i < |recs| ==> recs[i].Ok()
  {
    exists j :: 0 <= j < k && recs[j].WellNamed() && Listed(recs[j]) == Listed(recs[k])
  }

  /** Every record is well named, or listed after a well-named one of the same name. */
  predicate WellFormed(recs: seq<Rec>)
    requires forall k :: 0 <= k < |recs| ==> recs[k].Ok()
  {
    forall k :: 0 <= k < |recs| ==> recs[k].WellNamed() || Shadowed(recs, k)
  }

  lemma MatchFacts(recs: seq<Rec>, c: seq<Byte>, k: int)
    requires 0 <= k < |recs| && recs[k].Ok() && IsComponent(c)
    ensures Matches(recs[k], c) <==> recs[k].WellNamed() && Listed(recs[k]) == LowerAll(c)
  {
    hide Matches, Listed, LowerAll, Rec.WellNamed, IsComponent;
    if recs[k].WellNamed() {
      MatchIsListed(recs[k], c);
    } else {
      IllNamedIsLost(recs[k], c);
    }
  }

  lemma FirstMatchIs(recs: seq<Rec>, c: seq<Byte>)
    requires forall k :: 0 <= k < |recs| ==> recs[k].Ok()
    ensures var r := FirstMatch(recs, c);
            && (r >= 0 ==> Matches(recs[r], c))
            && forall j :: 0 <= j < (if r < 0 then |recs| else r) ==> !Matches(recs[j], c)
  {
    hide Matches;
  }

  lemma WellFormedAgrees(recs: seq<Rec>, c: seq<Byte>)
    requires (forall k :: 0 <= k < |recs| ==> recs[k].Ok()) && WellFormed(recs) && IsComponent(c)
    ensures SameRecord(recs, c)
  {
    hide Matches, Listed, LowerAll, Rec.WellNamed, IsComponent, FirstMatch;
    FirstMatchIs(recs, c);
    var r := FirstMatch(recs, c);
    if r >= 0 {
      MatchFacts(recs, c, r);
    }
    forall j | 0 <= j < (if r < 0 then |recs| else r) ensures Listed(recs[j]) != LowerAll(c) {
      MatchFacts(recs, c, j);
      if Listed(recs[j]) == LowerAll(c) {
        var i :| 0 <= i < j && recs[i].WellNamed() && Listed(recs[i]) == Listed(recs[j]);
        MatchFacts(recs, c, i);
        assert false;
      }
    }
  }

  lemma AgreeingIsWellFormed(recs: seq<Rec>, k: int)
    requires 0 <= k < |recs| && (forall k :: 0 <= k < |recs| ==> recs[k].Ok())
    requires IsComponent(Listed(recs[k])) ==> SameRecord(recs, Listed(recs[k]))
    ensures recs[k].WellNamed() || Shadowed(recs, k)
  {
    var c, r := Listed(recs[k]), FirstMatch(recs, Listed(recs[k]));
    ListedIsComponent(recs[k]);
    FirstMatchIs(recs, c);
    assert r >= 0 && Listed(recs[r]) == c && r <= k;
    hide *;
    MatchFacts(recs, c, r);
    if !recs[k].WellNamed() {
      ShadowedBy(recs, k, r);
    }
  }

  lemma ShadowedBy(recs: seq<Rec>, k: int, j: int)
    requires 0 <= j <= k < |recs| && forall i :: 0 <= i < |recs| ==> recs[i].Ok()
    requires recs[j].WellNamed() && !recs[k].WellNamed() && Listed(recs[j]) == Listed(recs[k])
    ensures Shadowed(recs, k)
  {
    hide Listed, Rec.WellNamed;
    assert j < k;
  }

  /** In a directory, lookup agrees with listing on all components exactly when it is well formed. */
  lemma DirectoryAgreesExactly(recs: seq<Rec>)
    requires forall k :: 0 <= k < |recs| ==> recs[k].Ok()
    ensures (forall c :: IsComponent(c) ==> SameRecord(recs, c)) <==> WellFormed(recs)
  {
    hide SameRecord, IsComponent, Shadowed, Rec.WellNamed;
    if WellFormed(recs) {
      forall c | IsComponent(c) ensures SameRecord(recs, c) {
        WellFormedAgrees(recs, c);
      }
    }
    if forall c :: IsComponent(c) ==> SameRecord(recs, c) {
      forall k | 0 <= k < |recs| ensures recs[k].WellNamed() || Shadowed(recs, k) {
        AgreeingIsWellFormed(recs, k);
      }
    }
  }

  /** The first entry a listing shows under a name. */
  predicate FirstListed(list: seq<DirEntry>, name: seq<Byte>, k: int) {
    0 <= k < |list| && list[k].name == name && forall j :: 0 <= j < k ==> list[j].name != name
  }

  /**
   * Lookup agrees with listing: with room for all entries of a well-formed directory, a name is found exactly when
   * some entry listed is it, in any letter case, and then at the first such record.
   */
  lemma LookupAgreesWithListing(d: Disk, dir: Loc, name: seq<Byte>, room: nat)
    requires ListDir(d, dir, room).Some? && |RecordsFrom(d, dir, 0).0| <= room
    requires WellFormed(RecordsFrom(d, dir, 0).0) && IsComponent(name)
    ensures var list, recs, low := ListDir(d, dir, room).value, RecordsFrom(d, dir, 0).0, LowerAll(name);
            && |list| == |recs|
            && (FindChild(d, dir, name).Hit? <==> exists k :: FirstListed(list, low, k))
            && forall k :: FirstListed(list, low, k) ==>
                 FindChild(d, dir, name) == Hit(recs[k].Target()) && list[k].dir == recs[k].Target().Dir()
  {
    var list, recs := ListDir(d, dir, room).value, RecordsFrom(d, dir, 0).0;
    FindIsFirst(d, dir, name, 0);
    ListedAre(d, dir, room);
    WellFormedAgrees(recs, name);
    assert FindChild(d, dir, name).Hit? <==> FirstMatch(recs, name) >= 0;
    hide *;
    if FirstMatch(recs, name) >= 0 {
      FirstIsListed(recs, list, name);
    } else {
      NoneIsListed(recs, list, name);
    }
  }

  lemma ListedAre(d: Disk, dir: Loc, room: nat)
    requires ListDir(d, dir, room).Some? && |RecordsFrom(d, dir, 0).0| <= room
    ensures var list, recs := ListDir(d, dir, room).value, RecordsFrom(d, dir, 0).0;
            RecordsFrom(d, dir, 0).1 == Clean && EntriesOf(recs, list)
  {
    hide Listed, RecordsFrom;
  }

  predicate EntriesOf(recs: seq<Rec>, list: seq<DirEntry>) {
    && |list| == |recs|
    && forall k :: 0 <= k < |recs| ==>
         recs[k].Ok() && list[k] == DirEntry(Listed(recs[k]), recs[k].Target().Dir())
  }

  lemma FirstIsListed(recs: seq<Rec>, list: seq<DirEntry>, c: seq<Byte>)
    requires (forall k :: 0 <= k < |recs| ==> recs[k].Ok()) && EntriesOf(recs, list)
    requires SameRecord(recs, c) && FirstMatch(recs, c) >= 0
    ensures var r, low := FirstMatch(recs, c), LowerAll(c);
            && |list| == |recs| && FirstListed(list, low, r) && list[r].dir == recs[r].Target().Dir()
            && forall k :: FirstListed(list, low, k) ==> k == r
  {
    hide Listed, LowerAll, FirstMatch, Rec.Target, Loc.Dir;
  }

  lemma NoneIsListed(recs: seq<Rec>, list: seq<DirEntry>, c: seq<Byte>)
    requires (forall k :: 0 <= k < |recs| ==> recs[k].Ok()) && EntriesOf(recs, list)
    requires SameRecord(recs, c) && FirstMatch(recs, c) < 0
    ensures |list| == |recs| && forall k :: !FirstListed(list, LowerAll(c), k)
  {
    hide Listed, LowerAll, FirstMatch, Rec.Target, Loc.Dir;
  }
}
