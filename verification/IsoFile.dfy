// Directory records and volume descriptors as ECMA-119 lays them out (sections 8.4 and 9.1, with the NM field of
// RRIP section 4.1.4), and what looking a name up in them finds.

module IsoFile {
  import opened Bytes
  import opened Iso
  import opened IsoPath

  // ---- sections 7.2.3 and 7.3.3: both byte orders ---------------------------

  function BigWord(w: U32): (b: seq<Byte>)
    ensures |b| == 4
  {
    [w / 0x100_0000, w / 0x1_0000 % 0x100, w / 0x100 % 0x100, w % 0x100]
  }

  function Both32(w: U32): (b: seq<Byte>)
    ensures |b| == 8
  {
    EncodeWord(w) + BigWord(w)
  }

  function Both16(h: U32): (b: seq<Byte>)
    requires h < 0x1_0000
    ensures |b| == 4
  {
    [h % 0x100, h / 0x100, h / 0x100, h % 0x100]
  }

  // ---- names ---------------------------------------------------------------

  predicate Text(s: seq<Byte>) {
    0 < |s| < NAME_BUF && forall i :: 0 <= i < |s| ==> 32 <= s[i] && s[i] != 59
  }

  /** Section 7.5: the two reserved identifiers, or a name, perhaps with an empty extension, and a version. */
  datatype Ident = Self | Parent | Name(base: seq<Byte>, dot: bool, version: Option<seq<Byte>>)
  {
    predicate Ok() {
      Name? ==> Text(base) && base[|base| - 1] != 46
    }
    function Write(): (b: seq<Byte>) {
      match this
      case Self => [0]
      case Parent => [1]
      case Name(base, dot, version) =>
        base + (if dot then [46] else []) + (if version.Some? then [59] + version.value else [])
    }
  }

  /** A field of the system use area that is not a name. */
  datatype Field = Field(a: Byte, b: Byte, version: Byte, data: seq<Byte>)
  {
    predicate Ok() {
      (a, b) != (78, 77) && |data| < 252
    }
    function Write(): (s: seq<Byte>)
      requires Ok()
      ensures |s| == 4 + |data|
    {
      [a, b, 4 + |data|, version] + data
    }
  }

  predicate FieldsOk(fields: seq<Field>) {
    forall i :: 0 <= i < |fields| ==> fields[i].Ok()
  }

  function WriteFields(fields: seq<Field>): (s: seq<Byte>)
    requires FieldsOk(fields)
  {
    if fields == [] then [] else fields[0].Write() + WriteFields(fields[1..])
  }

  /** The NM field of a name that is not continued. */
  function WriteAlt(alt: Option<seq<Byte>>): (s: seq<Byte>)
    requires alt.Some? ==> |alt.value| < NAME_BUF
  {
    if alt.Some? then [78, 77, 5 + |alt.value|, 1, 0] + alt.value else []
  }

  // ---- directory records ---------------------------------------------------

  /** The fields of a record, in their order; `use` ends in a name of its own, if any, and up to three more bytes. */
  datatype Entry = Entry(attributes: Byte, extent: U32, size: U32, date: seq<Byte>, flags: Byte, unit: Byte, gap: Byte,
                         volume: U32, ident: Ident, fields: seq<Field>, alt: Option<seq<Byte>>, tail: seq<Byte>)
  {
    predicate Ok() {
      && |date| == 7 && volume < 0x1_0000 && ident.Ok() && FieldsOk(fields) && |tail| < 4
      && (alt.Some? ==> Text(alt.value)) && |ident.Write()| < 0x100 && Length() < 0x100
    }
    function Use(): (s: seq<Byte>)
      requires FieldsOk(fields) && (alt.Some? ==> Text(alt.value))
    {
      WriteFields(fields) + (WriteAlt(alt) + tail)
    }
    function Length(): nat
      requires FieldsOk(fields) && (alt.Some? ==> Text(alt.value))
    {
      33 + |Pad()| + |Use()|
    }
    function Pad(): seq<Byte> {
      ident.Write() + (if |ident.Write()| % 2 == 0 then [0] else [])
    }
    function Write(): (b: seq<Byte>)
      requires Ok()
      ensures |b| == Length()
    {
      [Length(), attributes] + Both32(extent) + Both32(size) + date + [flags, unit, gap] + Both16(volume)
      + [|ident.Write()|] + Pad() + Use()
    }
    function Location(): Loc {
      Loc(extent, size, flags)
    }
    predicate Special() {
      ident.Self? || ident.Parent?
    }
    /** What the file is called: by its NM field, or else by its identifier's name. */
    function Called(): seq<Byte> {
      if alt.Some? then alt.value else if ident.Name? then ident.base else []
    }
    /** A component names it, in any letter case. */
    predicate Named(c: seq<Byte>) {
      !Special() && LowerAll(Called()) == LowerAll(c)
    }
  }

  // ---- reading the fields back ---------------------------------------------

  /** Bytes `r` at `at` in `s`. */
  predicate There(s: seq<Byte>, at: nat, r: seq<Byte>) {
    at + |r| <= |s| && s[at..at + |r|] == r
  }

  lemma ThereIn(s: seq<Byte>, at: nat, r: seq<Byte>, from: nat, x: seq<Byte>)
    requires There(s, at, r) && There(r, from, x)
    ensures There(s, at + from, x)
  {
    SubSlice(s, at, at + |r|, from, from + |x|);
  }

  lemma ThereParts(s: seq<Byte>, at: nat, x: seq<Byte>, y: seq<Byte>)
    requires There(s, at, x + y)
    ensures There(s, at, x) && There(s, at + |x|, y)
  {
    assert There(x + y, 0, x) && There(x + y, |x|, y);
    ThereIn(s, at, x + y, 0, x);
    ThereIn(s, at, x + y, |x|, y);
  }

  lemma ThereAt(s: seq<Byte>, at: nat, r: seq<Byte>, i: nat)
    requires There(s, at, r) && i < |r|
    ensures s[at + i] == r[i]
  {
    assert s[at..at + |r|][i] == s[at + i];
  }

  /** The system use area gives the name of its NM field, in lower case, or none. */
  lemma {:induction false} UseRead(rec: seq<Byte>, off: nat, fields: seq<Field>, alt: Option<seq<Byte>>, tail: seq<Byte>)
    requires FieldsOk(fields) && (alt.Some? ==> Text(alt.value)) && |tail| < 4
    requires There(rec, off, WriteFields(fields) + (WriteAlt(alt) + tail))
    requires off + |WriteFields(fields) + (WriteAlt(alt) + tail)| == |rec|
    ensures RockRidge(rec, off, []) == if alt.Some? then Some(LowerAll(alt.value)) else None
    decreases |fields|
  {
    hide RockRidge, There, WriteAlt, LowerAll, Field.Write;
    var end := WriteAlt(alt) + tail;
    if fields != [] {
      var f, rest := fields[0], WriteFields(fields[1..]);
      assert WriteFields(fields) + end == f.Write() + (rest + end);
      ThereParts(rec, off, f.Write(), rest + end);
      FieldSkipped(rec, off, f);
      UseRead(rec, off + |f.Write()|, fields[1..], alt, tail);
    } else {
      assert WriteFields(fields) + end == end;
      if alt.Some? {
        ThereParts(rec, off, WriteAlt(alt), tail);
        AltRead(rec, off, alt.value);
      } else {
        NoAlt(rec, off, tail);
      }
    }
  }

  lemma NoAlt(rec: seq<Byte>, off: nat, tail: seq<Byte>)
    requires off + |WriteAlt(None) + tail| == |rec| && |tail| < 4
    ensures RockRidge(rec, off, []) == None
  {
  }

  lemma FieldSkipped(rec: seq<Byte>, off: nat, f: Field)
    requires f.Ok() && There(rec, off, f.Write())
    ensures RockRidge(rec, off, []) == RockRidge(rec, off + |f.Write()|, [])
  {
    ThereAt(rec, off, f.Write(), 0);
    ThereAt(rec, off, f.Write(), 1);
    ThereAt(rec, off, f.Write(), 2);
  }

  lemma AltRead(rec: seq<Byte>, off: nat, alt: seq<Byte>)
    requires Text(alt) && There(rec, off, WriteAlt(Some(alt)))
    ensures RockRidge(rec, off, []) == Some(LowerAll(alt))
  {
    hide RockRidge, LowerAll, There;
    var w := WriteAlt(Some(alt));
    ThereAt(rec, off, w, 0);
    ThereAt(rec, off, w, 1);
    ThereAt(rec, off, w, 2);
    ThereAt(rec, off, w, 4);
    AltBytes(rec, off, alt);
    AltThere(rec, off, 5 + |alt|, alt);
  }

  lemma AltBytes(rec: seq<Byte>, off: nat, alt: seq<Byte>)
    requires Text(alt) && There(rec, off, WriteAlt(Some(alt)))
    ensures off + 5 + |alt| <= |rec| && rec[off + 5..off + 5 + |alt|] == alt
  {
    var w := WriteAlt(Some(alt));
    assert w[5..|w|] == alt;
    SubSlice(rec, off, off + |w|, 5, |w|);
  }

  lemma AltThere(rec: seq<Byte>, off: nat, n: nat, alt: seq<Byte>)
    requires off + n <= |rec| && n == 5 + |alt| && rec[off + 5..off + n] == alt && 0 < |alt| < NAME_BUF
    requires rec[off] == 78 && rec[off + 1] == 77 && rec[off + 2] == n && rec[off + 4] == 0
    ensures RockRidge(rec, off, []) == Some(LowerAll(alt))
  {
    hide LowerAll;
    assert [] + LowerAll(alt) == LowerAll(alt);
  }

  // ---- a record in a sector ------------------------------------------------

  /** The record `r` of a sector begins with the written entry. */
  predicate Begins(r: Rec, e: Entry) {
    e.Ok() && |r.bytes| <= SECTOR && r.len == |e.Write()| && There(r.bytes, 0, e.Write())
  }

  /** The pieces of a record, at the offsets of section 9.1. */
  lemma EntryPieces(e: Entry)
    requires e.Ok()
    ensures var w := e.Write();
            && w[0] == e.Length() && There(w, 2, EncodeWord(e.extent)) && There(w, 10, EncodeWord(e.size))
            && w[25] == e.flags && w[32] == |e.ident.Write()|
            && There(w, 33, e.Pad()) && There(w, 33 + |e.Pad()|, e.Use())
  {
    hide EncodeWord, BigWord, Both16, Entry.Use, Entry.Pad, Ident.Write;
  }

  lemma WordRead(s: seq<Byte>, at: nat, w: U32)
    requires There(s, at, EncodeWord(w))
    ensures Word(s, at) == w
  {
    WordRoundTrip(w);
  }

  lemma FieldsRead(r: Rec, e: Entry)
    requires Begins(r, e)
    ensures r.Ok() && r.Target() == e.Location() && r.NameLen() == |e.ident.Write()| && r.bytes[0] == r.len
  {
    var w := e.Write();
    EntryPieces(e);
    hide Entry.Write, Entry.Use, Entry.Pad, Ident.Write, EncodeWord, Word;
    ThereIn(r.bytes, 0, w, 2, EncodeWord(e.extent));
    ThereIn(r.bytes, 0, w, 10, EncodeWord(e.size));
    WordRead(r.bytes, 2, e.extent);
    WordRead(r.bytes, 10, e.size);
    ThereAt(r.bytes, 0, w, 0);
    ThereAt(r.bytes, 0, w, 25);
    ThereAt(r.bytes, 0, w, 32);
  }

  lemma NameRead(r: Rec, e: Entry)
    requires Begins(r, e) && r.Ok() && r.NameLen() == |e.ident.Write()|
    ensures r.NameField() == e.ident.Write()
  {
    var w, n := e.Write(), e.ident.Write();
    EntryPieces(e);
    assert There(e.Pad(), 0, n);
    hide Entry.Write, Entry.Use, Entry.Pad, Ident.Write, EncodeWord;
    ThereIn(w, 33, e.Pad(), 0, n);
    ThereIn(r.bytes, 0, w, 33, n);
    assert r.bytes[33..][..|n|] == r.bytes[33..33 + |n|];
  }

  lemma AltIs(r: Rec, e: Entry)
    requires Begins(r, e) && r.Ok() && r.NameLen() == |e.ident.Write()|
    ensures r.RockRidgeName() == if e.alt.Some? then Some(LowerAll(e.alt.value)) else None
  {
    var w, at := e.Write(), 33 + |e.Pad()|;
    EntryPieces(e);
    assert at == SystemUse(r.NameLen());
    var rec := r.bytes[..r.len];
    assert rec == w;
    hide Entry.Write, Entry.Pad, Ident.Write, EncodeWord, Entry.Use, RockRidge;
    if at < r.len {
      UseIs(e);
      UseRead(rec, at, e.fields, e.alt, e.tail);
    } else {
      UseIs(e);
      assert e.alt == None;
    }
  }

  lemma UseIs(e: Entry)
    requires e.Ok()
    ensures e.Use() == WriteFields(e.fields) + (WriteAlt(e.alt) + e.tail) && e.Length() == 33 + |e.Pad()| + |e.Use()|
    ensures e.alt.Some? ==> |e.Use()| > 5
  {
  }

  /** The identifier's name, without its version and the dot of an empty extension. */
  lemma PlainIs(id: Ident)
    requires id.Ok() && id.Name?
    ensures Plain(id.Write()) == id.base && !(|id.Write()| == 1 && id.Write()[0] <= 1)
  {
    var w, b := id.Write(), id.base + if id.dot then [46] else [];
    assert w[..|b|] == b;
    UpToIs(w, |b|, 59);
    assert w[0] == id.base[0] >= 32;
  }

  lemma {:induction false} UpToIs(s: seq<Byte>, n: nat, c: Byte)
    requires n <= |s| && (n < |s| ==> s[n] == c) && forall i :: 0 <= i < n ==> s[i] != c
    ensures UpTo(s, c) == n
  {
    if n > 0 {
      assert forall i :: 0 <= i < n - 1 ==> s[1..][i] == s[i + 1];
      UpToIs(s[1..], n - 1, c);
    }
  }

  lemma LowerTwice(s: seq<Byte>)
    ensures LowerAll(LowerAll(s)) == LowerAll(s)
    ensures Text(s) ==> 0 !in LowerAll(s)
  {
  }

  /** What the reader sees of a written record: where its file lies, whether it is special, and what names it. */
  lemma RecordRead(r: Rec, e: Entry, c: seq<Byte>)
    requires Begins(r, e)
    ensures r.Ok() && r.Target() == Loc(e.extent, e.size, e.flags) && (r.Dot() <==> e.Special())
    ensures !e.Special() ==> (Matches(r, c) <==> e.Named(c))
  {
    FieldsRead(r, e);
    NameRead(r, e);
    AltIs(r, e);
    hide Entry.Write, EncodeWord, RockRidge, Begins, Rec.RockRidgeName, Rec.NameField, Plain, LowerAll, CString;
    if e.ident.Name? {
      PlainIs(e.ident);
    }
    if e.alt.Some? {
      LowerTwice(e.alt.value);
    }
  }

  // ---- a directory ---------------------------------------------------------

  lemma NextFits(offset: U32, n: nat)
    requires offset < MAX_EXTENT && offset % SECTOR + n <= SECTOR
    ensures offset + n <= MAX_EXTENT && (offset / SECTOR + 1) * SECTOR <= MAX_EXTENT
  {
    assert offset == offset / SECTOR * SECTOR + offset % SECTOR;
  }

  /** Section 6.8.1: from byte `offset` on the extent is these records, none across sectors, each sector then zeros. */
  predicate Laid(d: Disk, dir: Loc, offset: U32, es: seq<Entry>)
    requires dir.size <= MAX_EXTENT && offset <= MAX_EXTENT
    decreases WORD - offset
  {
    if offset >= dir.size then es == []
    else
      var s := d(Wrap(dir.lba + offset / SECTOR));
      if s == None then false
      else
        var at := offset % SECTOR;
        NextFits(offset, 0);
        if s.value[at] == 0 then Laid(d, dir, (offset / SECTOR + 1) * SECTOR, es)
        else
          && es != [] && es[0].Ok() && There(s.value, at, es[0].Write())
          && (NextFits(offset, |es[0].Write()|); Laid(d, dir, offset + |es[0].Write()|, es[1..]))
  }

  /** Entry `k` is the first one the component names. */
  predicate FirstNamed(es: seq<Entry>, c: seq<Byte>, k: int) {
    0 <= k < |es| && es[k].Named(c) && forall j :: 0 <= j < k ==> !es[j].Named(c)
  }

  predicate NoneNamed(es: seq<Entry>, c: seq<Byte>) {
    forall j :: 0 <= j < |es| ==> !es[j].Named(c)
  }

  lemma RecordThere(s: Sector, at: nat, e: Entry)
    requires at < SECTOR && e.Ok() && There(s, at, e.Write())
    ensures s[at] == |e.Write()| && Begins(Rec(s[at..], |e.Write()|), e)
  {
    EntryPieces(e);
    ThereAt(s, at, e.Write(), 0);
    var r := Rec(s[at..], |e.Write()|);
    assert r.bytes[0..|e.Write()|] == s[at..at + |e.Write()|];
    hide Entry.Write;
  }

  lemma SlotIs(d: Disk, dir: Loc, offset: U32, e: Entry)
    requires d(Lba(dir, offset)).Some? && e.Ok() && There(d(Lba(dir, offset)).value, offset % SECTOR, e.Write())
    ensures var slot := SlotAt(d, dir, offset);
            slot.Record? && slot.rec.len == |e.Write()| && Begins(slot.rec, e)
  {
    RecordThere(d(Lba(dir, offset)).value, offset % SECTOR, e);
    hide Entry.Write, Begins, Entry.Ok, Lba;
  }

  /** One turn of the search, with the rest of it abstract. */
  lemma FindStep(d: Disk, dir: Loc, c: seq<Byte>, offset: U32)
    requires offset < dir.size <= MAX_EXTENT && !SlotAt(d, dir, offset).Bad?
    ensures var slot := SlotAt(d, dir, offset);
            var next := NextOffset(offset, slot);
            && offset < next <= MAX_EXTENT
            && FindFrom(d, dir, c, offset)
               == if slot.Record? && !slot.rec.Dot() && Matches(slot.rec, c) then Hit(slot.rec.Target())
                  else FindFrom(d, dir, c, next)
  {
    OffsetGrows(d, dir, offset);
    hide SlotAt, NextOffset, Matches, Rec.Target, Rec.Dot;
  }

  /** What a search of a written directory ends with. */
  ghost predicate Answer(es: seq<Entry>, c: seq<Byte>, r: Found) {
    || (NoneNamed(es, c) && r == Miss)
    || exists k :: FirstNamed(es, c, k) && r == Hit(Loc(es[k].extent, es[k].size, es[k].flags))
  }

  lemma AnswerFirst(es: seq<Entry>, c: seq<Byte>)
    requires es != [] && es[0].Named(c)
    ensures Answer(es, c, Hit(Loc(es[0].extent, es[0].size, es[0].flags)))
  {
    hide Entry.Named;
    assert FirstNamed(es, c, 0);
  }

  lemma AnswerLater(es: seq<Entry>, c: seq<Byte>, r: Found)
    requires es != [] && !es[0].Named(c) && Answer(es[1..], c, r)
    ensures Answer(es, c, r)
  {
    hide Entry.Named;
    if k :| FirstNamed(es[1..], c, k) && r == Hit(Loc(es[1..][k].extent, es[1..][k].size, es[1..][k].flags)) {
      assert es[1..][k] == es[k + 1];
      assert forall j :: 0 < j < k + 1 ==> es[j] == es[1..][j - 1];
      assert FirstNamed(es, c, k + 1);
    } else {
      assert forall j :: 0 < j < |es| ==> es[j] == es[1..][j - 1];
    }
  }

  lemma LaidIs(d: Disk, dir: Loc, offset: U32, es: seq<Entry>)
    requires offset < dir.size <= MAX_EXTENT && Laid(d, dir, offset, es)
    ensures var s, at, up := d(Lba(dir, offset)), offset % SECTOR, (offset / SECTOR + 1) * SECTOR;
            && s.Some? && up <= MAX_EXTENT
            && (s.value[at] == 0 ==> Laid(d, dir, up, es))
            && (s.value[at] != 0 ==>
                  && es != [] && es[0].Ok() && There(s.value, at, es[0].Write())
                  && offset + |es[0].Write()| <= MAX_EXTENT && Laid(d, dir, offset + |es[0].Write()|, es[1..]))
  {
    hide Entry.Write, Entry.Ok, There, Wrap;
    NextFits(offset, 0);
    if d(Lba(dir, offset)).value[offset % SECTOR] != 0 {
      NextFits(offset, |es[0].Write()|) by { Fits(d(Lba(dir, offset)).value, offset % SECTOR, es[0].Write()); }
    }
  }

  lemma Fits(s: seq<Byte>, at: nat, r: seq<Byte>)
    requires There(s, at, r)
    ensures at + |r| <= |s|
  {
  }

  /** The two ways a laid extent goes on. */
  lemma LaidStep(d: Disk, dir: Loc, offset: U32, es: seq<Entry>)
    requires offset < dir.size <= MAX_EXTENT && Laid(d, dir, offset, es)
    ensures var slot := SlotAt(d, dir, offset);
            var next := NextOffset(offset, slot);
            && !slot.Bad? && offset < next <= MAX_EXTENT
            && (slot.Padding? ==> Laid(d, dir, next, es))
            && (slot.Record? ==> es != [] && Begins(slot.rec, es[0]) && Laid(d, dir, next, es[1..]))
  {
    hide Laid, Entry.Write, Entry.Ok, Begins, There, Lba;
    LaidIs(d, dir, offset, es);
    var s, at := d(Lba(dir, offset)), offset % SECTOR;
    if s.value[at] != 0 {
      SlotIs(d, dir, offset, es[0]);
    }
    OffsetGrows(d, dir, offset);
    hide SlotAt;
  }

  lemma {:induction false} FindLaid(d: Disk, dir: Loc, offset: U32, es: seq<Entry>, c: seq<Byte>)
    requires dir.size <= MAX_EXTENT && offset <= MAX_EXTENT && Laid(d, dir, offset, es)
    ensures Answer(es, c, FindFrom(d, dir, c, offset))
    decreases WORD - offset
  {
    hide SlotAt, Laid, NextOffset, Matches, Rec.Target, Rec.Dot, Begins, Answer, Entry.Named;
    if offset >= dir.size {
      NothingLaid(d, dir, offset, es, c);
    } else {
      LaidStep(d, dir, offset, es);
      FindStep(d, dir, c, offset);
      var slot := SlotAt(d, dir, offset);
      if slot.Record? {
        RecordRead(slot.rec, es[0], c);
        SpecialUnnamed(es[0], c);
        if es[0].Named(c) {
          AnswerFirst(es, c);
        } else {
          FindLaid(d, dir, NextOffset(offset, slot), es[1..], c);
          AnswerLater(es, c, FindFrom(d, dir, c, offset));
        }
      } else {
        FindLaid(d, dir, NextOffset(offset, slot), es, c);
      }
    }
  }

  lemma SpecialUnnamed(e: Entry, c: seq<Byte>)
    ensures e.Special() ==> !e.Named(c)
  {
  }

  lemma NothingLaid(d: Disk, dir: Loc, offset: U32, es: seq<Entry>, c: seq<Byte>)
    requires dir.size <= MAX_EXTENT && dir.size <= offset <= MAX_EXTENT && Laid(d, dir, offset, es)
    ensures FindFrom(d, dir, c, offset) == Miss && Answer(es, c, Miss)
  {
  }

  /**
   * In a directory laid out as the standard says, looking a name up gives extent, size and flags of the first record
   * of that name, as they were written, and misses exactly if there is none.
   */
  lemma FindsWritten(d: Disk, dir: Loc, es: seq<Entry>, c: seq<Byte>)
    requires dir.size <= MAX_EXTENT && Laid(d, dir, 0, es)
    ensures FindChild(d, dir, c) == Miss <==> NoneNamed(es, c)
    ensures forall k :: FirstNamed(es, c, k) ==> FindChild(d, dir, c) == Hit(Loc(es[k].extent, es[k].size, es[k].flags))
  {
    FindLaid(d, dir, 0, es, c);
    hide FindFrom, Laid, Entry.Named;
  }

  // ---- a listing -----------------------------------------------------------

  /** The entries that are not for the directory itself or its parent. */
  function Regular(es: seq<Entry>): (r: seq<Entry>) {
    if es == [] then [] else (if es[0].Special() then [] else [es[0]]) + Regular(es[1..])
  }

  /** A record read back: where its file lies and what it is listed as. */
  predicate Reads(rec: Rec, e: Entry) {
    rec.Ok() && rec.Target() == e.Location() && !e.Special() && Listed(rec) == LowerAll(e.Called())
  }

  predicate AllRead(recs: seq<Rec>, es: seq<Entry>) {
    |recs| == |es| && forall k :: 0 <= k < |recs| ==> Reads(recs[k], es[k])
  }

  lemma ListedRead(r: Rec, e: Entry)
    requires Begins(r, e) && !e.Special()
    ensures Reads(r, e)
  {
    FieldsRead(r, e);
    NameRead(r, e);
    AltIs(r, e);
    PlainIs(e.ident);
    LowerTwice(e.Called());
    assert Text(e.Called());
    hide Entry.Write, EncodeWord, RockRidge, Begins, Rec.RockRidgeName, Rec.NameField, Plain, LowerAll, CString, Rec.Target;
  }

  /** One turn of a walk, with the rest of it abstract. */
  lemma RecordsStep(d: Disk, dir: Loc, offset: U32)
    requires offset < dir.size <= MAX_EXTENT && !SlotAt(d, dir, offset).Bad?
    ensures var slot := SlotAt(d, dir, offset);
            var next := NextOffset(offset, slot);
            && offset < next <= MAX_EXTENT
            && var (rest, end) := RecordsFrom(d, dir, next);
               RecordsFrom(d, dir, offset)
               == (if slot.Record? && !slot.rec.Dot() then [slot.rec] + rest else rest, end)
  {
    OffsetGrows(d, dir, offset);
    hide SlotAt, NextOffset, Rec.Dot;
  }

  lemma ReadMore(rec: Rec, rest: seq<Rec>, es: seq<Entry>)
    requires es != [] && AllRead(rest, Regular(es[1..]))
    ensures es[0].Special() ==> AllRead(rest, Regular(es))
    ensures !es[0].Special() && Reads(rec, es[0]) ==> AllRead([rec] + rest, Regular(es))
  {
    hide Reads, Entry.Special;
    var more := Regular(es[1..]);
    assert Regular(es) == if es[0].Special() then more else [es[0]] + more;
    hide Regular;
    var recs, all := [rec] + rest, [es[0]] + more;
    assert forall k :: 0 < k < |recs| ==> recs[k] == rest[k - 1] && all[k] == more[k - 1];
  }

  lemma NothingRead(d: Disk, dir: Loc, offset: U32, es: seq<Entry>)
    requires dir.size <= MAX_EXTENT && dir.size <= offset <= MAX_EXTENT && Laid(d, dir, offset, es)
    ensures RecordsFrom(d, dir, offset) == ([], Clean) && AllRead([], Regular(es))
  {
  }

  lemma {:induction false} RecordsLaid(d: Disk, dir: Loc, offset: U32, es: seq<Entry>)
    requires dir.size <= MAX_EXTENT && offset <= MAX_EXTENT && Laid(d, dir, offset, es)
    ensures RecordsFrom(d, dir, offset).1 == Clean && AllRead(RecordsFrom(d, dir, offset).0, Regular(es))
    decreases WORD - offset
  {
    hide *;
    if offset >= dir.size {
      NothingRead(d, dir, offset, es);
    } else {
      LaidStep(d, dir, offset, es);
      RecordsStep(d, dir, offset);
      var slot := SlotAt(d, dir, offset);
      var next := NextOffset(offset, slot);
      if slot.Record? {
        RecordsLaid(d, dir, next, es[1..]);
        RecordRead(slot.rec, es[0], []);
        ReadMore(slot.rec, RecordsFrom(d, dir, next).0, es);
        if !es[0].Special() {
          ListedRead(slot.rec, es[0]);
        }
      } else {
        RecordsLaid(d, dir, next, es);
      }
    }
  }

  /** The listing of such a directory: its entries in order, in lower case, as many as there is room for. */
  lemma ListsWritten(d: Disk, dir: Loc, es: seq<Entry>, room: nat)
    requires dir.size <= MAX_EXTENT && Laid(d, dir, 0, es)
    ensures var list, shown := ListDir(d, dir, room), Regular(es);
            && list.Some? && |list.value| == (if |shown| < room then |shown| else room)
            && forall k :: 0 <= k < |list.value| ==>
                 list.value[k] == DirEntry(LowerAll(shown[k].Called()), shown[k].flags / 2 % 2 == 1)
  {
    RecordsLaid(d, dir, 0, es);
    hide RecordsFrom, Laid, Regular, LowerAll, Listed, Rec.Target;
    var recs := RecordsFrom(d, dir, 0).0;
    forall k | 0 <= k < |recs| ensures Reads(recs[k], Regular(es)[k]) {
    }
  }

  // ---- the primary volume descriptor ---------------------------------------

  /** Section 8.4: the fields that matter, and between them what may hold anything. */
  datatype Descriptor = Descriptor(system: seq<Byte>, title: seq<Byte>, space: U32, tables: seq<Byte>, root: Entry,
                                   rest: seq<Byte>)
  {
    predicate Ok() {
      && |system| == 33 && |title| == 40 && |tables| == 68 && root.Ok() && root.Length() == 34
      && |rest| == SECTOR - 190
    }
    function Write(): (s: Sector)
      requires Ok()
    {
      [1, 67, 68, 48, 48, 49, 1] + system + title + Both32(space) + tables + root.Write() + rest
    }
  }

  lemma DescriptorPieces(v: Descriptor)
    requires v.Ok()
    ensures var s := v.Write();
            && s[0] == 1 && s[6] == 1 && s[1..6] == [67, 68, 48, 48, 49]
            && There(s, 80, EncodeWord(v.space)) && There(s, 156, v.root.Write())
  {
    hide EncodeWord, BigWord, Entry.Write, Entry.Ok, Entry.Length;
  }

  /** The reader gets the root's extent, size and flags and the volume's size, as they were written. */
  lemma VolumeRead(d: Disk, v: Descriptor)
    requires v.Ok() && d(16) == Some(v.Write())
    ensures ReadVolume(d) == Some(Volume(Loc(v.root.extent, v.root.size, v.root.flags), v.space))
  {
    var s, w := v.Write(), v.root.Write();
    DescriptorPieces(v);
    EntryPieces(v.root);
    hide Descriptor.Write, Entry.Write, EncodeWord, Word, Entry.Ok;
    WordRead(s, 80, v.space);
    ThereIn(s, 156, w, 2, EncodeWord(v.root.extent));
    ThereIn(s, 156, w, 10, EncodeWord(v.root.size));
    WordRead(s, 158, v.root.extent);
    WordRead(s, 166, v.root.size);
    ThereAt(s, 156, w, 0);
    ThereAt(s, 156, w, 25);
  }

  // ---- from a path to the bytes --------------------------------------------

  /** One directory on the way: its entries, the one taken, and the name it is asked for by. */
  datatype Turn = Turn(es: seq<Entry>, k: nat, name: seq<Byte>)
  {
    predicate Ok() {
      0 < |name| < NAME_BUF && SLASH !in name && FirstNamed(es, name, k)
    }
    function Taken(): Entry
      requires Ok()
    {
      es[k]
    }
  }

  /** The turns lead down through directories laid out on the disc, all of them inside the volume. */
  predicate Trail(d: Disk, volume: U32, cur: Loc, turns: seq<Turn>)
    decreases |turns|
  {
    turns != [] ==>
      && turns[0].Ok() && cur.size <= MAX_EXTENT && Laid(d, cur, 0, turns[0].es)
      && turns[0].Taken().size <= MAX_EXTENT && Within(turns[0].Taken().extent, turns[0].Taken().size, volume)
      && (|turns| > 1 ==> turns[0].Taken().flags / 2 % 2 == 1)
      && Trail(d, volume, turns[0].Taken().Location(), turns[1..])
  }

  function PathOf(turns: seq<Turn>): (p: seq<Byte>)
    ensures p == [] || p[0] == SLASH
  {
    if turns == [] then [] else [SLASH] + turns[0].name + PathOf(turns[1..])
  }

  lemma PartOf(name: seq<Byte>, rest: seq<Byte>)
    requires 0 < |name| < NAME_BUF && SLASH !in name && (rest == [] || rest[0] == SLASH)
    ensures NextPart([SLASH] + name + rest) == Part(name, rest)
  {
    var q := name + rest;
    assert [SLASH] + name + rest == [SLASH] + q;
    NextAfterSlash(q);
    assert q[0] == name[0] && name[0] in name;
    assert forall i :: 0 <= i < |name| ==> q[i] == name[i] && name[i] in name;
    UpToIs(q, |name|, SLASH);
    assert q[..|name|] == name && q[|name|..] == rest;
  }

  lemma TrailStep(d: Disk, volume: U32, cur: Loc, turns: seq<Turn>)
    requires turns != [] && Trail(d, volume, cur, turns)
    ensures turns[0].Ok() && Trail(d, volume, turns[0].Taken().Location(), turns[1..])
    ensures var e := turns[0].Taken();
            && FindChild(d, cur, turns[0].name) == Hit(e.Location()) && Sound(e.Location(), volume)
            && (|turns| > 1 ==> e.Location().Dir())
  {
    hide Laid, FirstNamed, FindChild;
    FindsWritten(d, cur, turns[0].es, turns[0].name);
    ValidIs(turns[0].Taken().extent, turns[0].Taken().size, volume);
    hide Valid, Within;
  }

  /** Resolution follows the names to the extent of the last entry taken. */
  lemma {:induction false} GoWritten(d: Disk, volume: U32, cur: Loc, turns: seq<Turn>)
    requires turns != [] && Trail(d, volume, cur, turns)
    ensures turns[|turns| - 1].Ok()
    ensures var at := turns[|turns| - 1].Taken().Location();
            Go(d, volume, cur, PathOf(turns)) == Done(at, at.Dir()) && Sound(at, volume)
    decreases |turns|
  {
    hide Trail, FindChild, Sound, NextPart, Go, Turn.Ok, Turn.Taken, Loc.Dir;
    TrailStep(d, volume, cur, turns);
    var at, rest := turns[0].Taken().Location(), PathOf(turns[1..]);
    NameIs(turns[0]);
    PartOf(turns[0].name, rest);
    GoIs(d, volume, cur, PathOf(turns));
    if |turns| > 1 {
      GoWritten(d, volume, at, turns[1..]);
      assert turns[1..][|turns| - 2] == turns[|turns| - 1];
    }
  }

  lemma NameIs(t: Turn)
    requires t.Ok()
    ensures 0 < |t.name| < NAME_BUF && SLASH !in t.name
  {
  }

  /** The bytes lie in the sectors from `extent` on. */
  predicate Stored(d: Disk, extent: U32, content: seq<Byte>) {
    forall i :: 0 <= i < |content| ==> ByteStored(d, extent, i, content[i])
  }

  predicate ByteStored(d: Disk, extent: U32, i: nat, b: Byte) {
    extent + i / SECTOR < WORD && d(extent + i / SECTOR).Some? && d(extent + i / SECTOR).value[i % SECTOR] == b
  }

  lemma StoredReads(d: Disk, l: Loc, content: seq<Byte>)
    requires Stored(d, l.lba, content) && |content| == l.size
    ensures Readable(d, l, 0) && Copied(d, l, 0, content)
  {
    forall k | 0 <= k < Sectors(l.size) ensures SectorOk(d, l, k) {
      assert k * SECTOR < l.size && k * SECTOR / SECTOR == k;
      assert ByteStored(d, l.lba, k * SECTOR, content[k * SECTOR]);
    }
    forall j | 0 <= j < |content| ensures ByteIs(d, l, 0 + j, content[j]) {
      assert ByteStored(d, l.lba, j, content[j]);
    }
  }

  /** An extent has one content. */
  lemma CopiedOnce(d: Disk, l: Loc, a: seq<Byte>, b: seq<Byte>)
    requires Copied(d, l, 0, a) && Copied(d, l, 0, b)
    ensures a == b
  {
    forall j | 0 <= j < |a| ensures a[j] == b[j] {
      assert ByteIs(d, l, 0 + j, a[j]) && ByteIs(d, l, 0 + j, b[j]);
    }
  }

  lemma Rooted(d: Disk, v: Descriptor, turns: seq<Turn>)
    requires v.Ok() && d(16) == Some(v.Write()) && v.root.size <= MAX_EXTENT
    requires Within(v.root.extent, v.root.size, v.space)
    ensures ResolvePath(d, PathOf(turns)) == Go(d, v.space, Loc(v.root.extent, v.root.size, v.root.flags), PathOf(turns))
  {
    hide Go, Descriptor.Ok, Descriptor.Write, ReadVolume, PathOf;
    VolumeRead(d, v);
    ValidIs(v.root.extent, v.root.size, v.space);
  }

  /**
   * From a disc as the standard lays it out to the bytes of a file: the descriptor, the directories on the way and the
   * last one's record lead to the file, and what is read is what was stored.
   */
  lemma ReadsWritten(d: Disk, v: Descriptor, turns: seq<Turn>, content: seq<Byte>, room: nat)
    requires v.Ok() && d(16) == Some(v.Write()) && v.root.size <= MAX_EXTENT
    requires Within(v.root.extent, v.root.size, v.space)
    requires turns != [] && Trail(d, v.space, Loc(v.root.extent, v.root.size, v.root.flags), turns)
    requires turns[|turns| - 1].Ok() && turns[|turns| - 1].Taken().flags / 2 % 2 == 0
    requires turns[|turns| - 1].Taken().size == |content| && Stored(d, turns[|turns| - 1].Taken().extent, content)
    ensures ReadFile(d, PathOf(turns), room) == if |content| <= FILE_MAX && |content| < room then Data(content) else NoFile
  {
    hide Descriptor.Ok, Descriptor.Write, Trail, PathOf, Within, Stored, Go, ReadFile, Readable, Copied, Turn.Ok, Turn.Taken,
      ResolvePath;
    Rooted(d, v, turns);
    GoWritten(d, v.space, Loc(v.root.extent, v.root.size, v.root.flags), turns);
    var at := turns[|turns| - 1].Taken().Location();
    StoredReads(d, at, content);
    ReadsExtent(d, PathOf(turns), room);
    var r := ReadFile(d, PathOf(turns), room);
    if r.Data? {
      CopiedOnce(d, at, r.bytes, content);
    }
  }

  // ---- a disc with one file ------------------------------------------------

  function Padded(s: seq<Byte>): (r: Sector)
    requires |s| <= SECTOR
  {
    s + Zeros(SECTOR - |s|)
  }

  /** Sector `k` of a file. */
  function Piece(content: seq<Byte>, k: nat): (r: seq<Byte>)
    requires k * SECTOR <= |content|
    ensures |r| <= SECTOR
  {
    Clip(content[k * SECTOR..], SECTOR)
  }

  /** Descriptor, one directory sector and the file. */
  function OneFile(v: Descriptor, e: Entry, content: seq<Byte>): (d: Disk)
    requires v.Ok() && e.Ok()
  {
    (lba: U32) =>
      if lba == 16 then Some(v.Write())
      else if lba == v.root.extent then Some(Padded(e.Write()))
      else if e.extent <= lba && (lba - e.extent) * SECTOR <= |content| then Some(Padded(Piece(content, lba - e.extent)))
      else None
  }

  /** The three parts are apart, and the fields say where they are. */
  predicate OneFileOk(v: Descriptor, e: Entry, content: seq<Byte>) {
    && v.Ok() && e.Ok() && v.root.size == SECTOR && e.size == |content| <= FILE_MAX && e.flags / 2 % 2 == 0
    && 16 < v.root.extent < e.extent && Within(e.extent, e.size, v.space)
  }

  /** Such a disc gives the file back, under every name in any letter case that it was written with. */
  lemma OneFileRead(v: Descriptor, e: Entry, content: seq<Byte>, name: seq<Byte>, room: nat)
    requires OneFileOk(v, e, content) && e.Named(name) && 0 < |name| < NAME_BUF && SLASH !in name && |content| < room
    ensures ReadFile(OneFile(v, e, content), [SLASH] + name, room) == Data(content)
  {
    var d, turn := OneFile(v, e, content), Turn([e], 0, name);
    var root := Loc(v.root.extent, v.root.size, v.root.flags);
    OneLaid(v, e, content);
    OneStored(v, e, content);
    hide OneFile, Laid, Stored, Descriptor.Write, Entry.Write, Descriptor.Ok, Entry.Ok, Entry.Named, Padded;
    assert FirstNamed([e], name, 0);
    assert turn.Ok() && turn.Taken() == e;
    assert Trail(d, v.space, e.Location(), []);
    assert [turn][1..] == [];
    assert Trail(d, v.space, root, [turn]);
    assert PathOf([turn]) == [SLASH] + name + [] == [SLASH] + name;
    ReadsWritten(d, v, [turn], content, room);
  }

  lemma OneLaid(v: Descriptor, e: Entry, content: seq<Byte>)
    requires OneFileOk(v, e, content)
    ensures OneFile(v, e, content)(16) == Some(v.Write())
    ensures Laid(OneFile(v, e, content), Loc(v.root.extent, v.root.size, v.root.flags), 0, [e])
  {
    var d, w := OneFile(v, e, content), e.Write();
    var s, dir := Padded(w), Loc(v.root.extent, v.root.size, v.root.flags);
    RecordThere(s, 0, e) by { assert s[0..0 + |w|] == w; }
    assert d(Wrap(dir.lba + 0 / SECTOR)) == Some(s) && s[|w|] == 0 && d(Wrap(dir.lba + |w| / SECTOR)) == Some(s);
    hide OneFile, Descriptor.Write, Entry.Write, Padded, There;
    assert Laid(d, dir, SECTOR, []);
    assert Laid(d, dir, |w|, []);
    assert [e][1..] == [];
  }

  lemma OneStored(v: Descriptor, e: Entry, content: seq<Byte>)
    requires OneFileOk(v, e, content)
    ensures Stored(OneFile(v, e, content), e.extent, content)
  {
    var d := OneFile(v, e, content);
    hide Descriptor.Write, Entry.Write, Descriptor.Ok, Entry.Ok;
    forall i | 0 <= i < |content| ensures ByteStored(d, e.extent, i, content[i]) {
      var k := i / SECTOR;
      assert k * SECTOR <= i < k * SECTOR + SECTOR && e.extent + k < WORD;
      assert d(e.extent + k) == Some(Padded(Piece(content, k)));
      assert Piece(content, k)[i % SECTOR] == content[k * SECTOR..][i % SECTOR] == content[i];
    }
  }
}
