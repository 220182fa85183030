// The file system as the kernel boots it (kernel/vfs.c), the first state of every run of file calls.

module FilesBoot {
  import opened Bytes
  import opened Paths
  import opened Heap
  import opened Tree
  import opened Resolve
  import opened Vfs
  import opened Files
  import opened FilesInv
  import opened FilesOpen
  import opened FilesRun
  import opened VfsMade
  import opened FilesExact
  import VfsFailures
  import FilesTrip

  /** The root alone, its node allocated. */
  function RootFs(h: Arena): (fs: Fs) {
    Fs([Node("", true, NIL, NIL, NIL, 0, 0)], h)
  }

  lemma RootFsOk(h: Arena)
    requires h.Ok()
    ensures FsOk(RootFs(h)) && forall n :: In(RootFs(h).t, n) ==> FileRegion(RootFs(h).t[n]).len == 0
  {
    assert LinkOk(RootFs(h).t, ROOT);
  }

  const DOCS := "/docs"

  function InDocs(w: string): (p: string)
    ensures '/' in p
  {
    DOCS + "/" + w
  }

  const README := "readme.txt"
  const ROADMAP := "roadmap.txt"

  /** The directories `vfs_init` asks for; two of them are refused (`VfsFailures.InitDirsRefused`). */
  function BootDirs(): seq<Call> {
    [MkdirCall(ROOT, "/bin"), MkdirCall(ROOT, "/docs"), MkdirCall(ROOT, "/mount"), MkdirCall(ROOT, "/mount/cdrom"),
     MkdirCall(ROOT, "/tmp")]
  }

  /** And its two files. */
  function BootFiles(readme: seq<Byte>, roadmap: seq<Byte>): seq<Call> {
    [PutCall(ROOT, InDocs(README), readme), PutCall(ROOT, InDocs(ROADMAP), roadmap)]
  }

  ghost function WithDirs(h: Arena): (s: Sys)
    requires h.Ok() && h.ready
    ensures SysOk(s)
  {
    RootFsOk(h);
    FirstSysOk(RootFs(h));
    Finally(FirstSys(RootFs(h)), BootDirs())
  }

  /** The machine as the first process finds it. */
  ghost function Booted(h: Arena, readme: seq<Byte>, roadmap: seq<Byte>): (s: Sys)
    requires h.Ok() && h.ready
    ensures SysOk(s)
  {
    Finally(WithDirs(h), BootFiles(readme, roadmap))
  }

  // ---- what booting leaves -------------------------------------------------

  lemma NoneOpened(s: Sys, c: Call)
    requires SysOk(s) && (c.MkdirCall? || c.PutCall?)
    ensures Perform(s, c).0.fds == s.fds
  {
    if Possible(s, c) {
      PerformIs(s, c);
    }
    hide SysOk, WriteFile, MakeDir;
  }

  lemma {:induction false} NoneOpen(s: Sys, calls: seq<Call>)
    requires SysOk(s) && forall k :: 0 <= k < |calls| ==> calls[k].MkdirCall? || calls[k].PutCall?
    ensures Finally(s, calls).fds == s.fds
    decreases calls
  {
    if calls != [] {
      NoneOpened(s, calls[0]);
      PerformOk(s, calls[0]);
      hide SysOk, Perform;
      NoneOpen(Perform(s, calls[0]).0, calls[1..]);
    }
  }

  /** Every file theorem holds from the booted machine on: its invariant is met, and no descriptor is open. */
  lemma BootedOk(h: Arena, readme: seq<Byte>, roadmap: seq<Byte>)
    requires h.Ok() && h.ready
    ensures SysOk(Booted(h, readme, roadmap)) && forall f :: !Open(Booted(h, readme, roadmap), f)
  {
    RootFsOk(h);
    FirstSysOk(RootFs(h));
    NoneOpen(FirstSys(RootFs(h)), BootDirs());
    NoneOpen(WithDirs(h), BootFiles(readme, roadmap));
    hide SysOk, Finally;
  }

  lemma SplitLast(parent: string, w: string)
    requires parent != "" && |parent| < PATH_MAX && IsName(w) && !Dots(w)
    ensures LastSlash(parent + "/" + w) == |parent| && SplitParent(parent + "/" + w) == Some((parent, w))
  {
    var p := parent + "/" + w;
    assert p[|parent|] == '/' && p[|parent| + 1..] == w && p[..|parent|] == parent;
    LastSlashIs(p, |parent|);
  }

  lemma {:induction false} LastSlashIs(p: string, i: nat)
    requires i < |p| && p[i] == '/' && '/' !in p[i + 1..]
    ensures LastSlash(p) == i
    decreases |p|
  {
    var k := |p| - 1;
    if i < k {
      var tail := p[i + 1..];
      assert tail[k - i - 1] == p[k] && p[..k][i + 1..] == tail[..k - i - 1];
      LastSlashIs(p[..k], i);
    }
  }

  /** What an absolute path resolves to is called by its last name. */
  lemma ResolvedName(t: Forest, parent: string, w: string, n: int)
    requires Links(t) && In(t, ROOT) && parent != "" && |parent| < PATH_MAX && IsName(w) && !Dots(w)
    requires ResolveFrom(t, ROOT, parent + "/" + w) == Some(n)
    ensures In(t, n) && t[n].name == w
  {
    SplitLast(parent, w);
    SplitResolves(t, ROOT, parent + "/" + w);
    var d := ResolveFrom(t, ROOT, parent).value;
    FoundIsChild(t, d, w);
    hide Links, FindChild, ResolveFrom, SplitParent, LastSlash;
  }

  /** File `n` is what the path names, and holds `b`. */
  ghost predicate HoldsAt(s: Sys, path: string, n: int, b: seq<Byte>) {
    && Links(s.fs.t) && In(s.fs.t, ROOT) && ResolveFrom(s.fs.t, ROOT, path) == Some(n)
    && !s.fs.t[n].dir && FileBytes(s, n) == b
  }

  lemma SeedHolds(s: Sys, path: string, b: seq<Byte>)
    requires SysOk(s) && '/' in path && |b| < USER_BASE && Perform(s, PutCall(ROOT, path, b)).1.Done?
    ensures exists n :: HoldsAt(Perform(s, PutCall(ROOT, path, b)).0, path, n, b)
  {
    var c := PutCall(ROOT, path, b);
    assert Possible(s, c);
    PerformIs(s, c);
    PerformOk(s, c);
    var r := Perform(s, c).0;
    assert Links(r.fs.t);
    PublishRefines(s, ROOT, path, b);
    hide SysOk, Publish, Kept, SameViews, SameFile, Perform, FileBytes, ResolveFrom;
    assert ReadFile(r.fs.t, ROOT, path).Some?;
    assert HoldsAt(r, path, ResolveFrom(r.fs.t, ROOT, path).value, b);
  }

  /** Another file's seed does not touch it. */
  lemma SeedKeeps(s: Sys, path: string, n: int, b: seq<Byte>, parent: string, w: string, other: seq<Byte>)
    requires SysOk(s) && HoldsAt(s, path, n, b) && |other| < USER_BASE
    requires parent != "" && |parent| < PATH_MAX && IsName(w) && !Dots(w) && s.fs.t[n].name != w
    ensures HoldsAt(Perform(s, PutCall(ROOT, parent + "/" + w, other)).0, path, n, b)
  {
    var p := parent + "/" + w;
    var c := PutCall(ROOT, p, other);
    assert Possible(s, c);
    PerformIs(s, c);
    PerformOk(s, c);
    var r := Perform(s, c).0;
    assert Links(r.fs.t) && Ok(s.fs.t) && Ok(r.fs.t) && In(r.fs.t, ROOT) && In(r.fs.t, n);
    assert SameNode(s.fs.t[n], r.fs.t[n]);
    ResolveStays(s.fs.t, r.fs.t, ROOT, path);
    PublishRefines(s, ROOT, p, other);
    hide SysOk, Publish, Kept, SameViews, Perform, ResolveFrom, Ok, Extends, ReadFile;
    if ResolveFrom(r.fs.t, ROOT, p) == Some(n) {
      ResolvedName(r.fs.t, parent, w, n);
    }
    assert SameFile(s, r, n);
  }

  lemma OneCall(s: Sys, a: Call)
    requires SysOk(s)
    ensures Finally(s, [a]) == Perform(s, a).0 && Outcomes(s, [a]) == [Perform(s, a).1]
  {
    PerformOk(s, a);
    hide SysOk, Perform;
    var r := Perform(s, a).0;
    assert [a][1..] == [] && Outcomes(r, []) == [] && [Perform(s, a).1] + [] == [Perform(s, a).1];
  }

  lemma TwoCalls(s: Sys, a: Call, b: Call)
    requires SysOk(s)
    ensures SysOk(Perform(s, a).0) && Finally(s, [a, b]) == Perform(Perform(s, a).0, b).0
    ensures Outcomes(s, [a, b]) == [Perform(s, a).1, Perform(Perform(s, a).0, b).1]
  {
    PerformOk(s, a);
    var s1 := Perform(s, a).0;
    OneCall(s1, b);
    hide SysOk, Perform;
    assert [a, b][1..] == [b];
  }

  /** Two seeds that were written are both there. */
  lemma SeedsHold(s: Sys, readme: seq<Byte>, roadmap: seq<Byte>)
    requires SysOk(s) && |readme| < USER_BASE && |roadmap| < USER_BASE
    requires Perform(s, PutCall(ROOT, InDocs(README), readme)).1.Done?
    requires var s1 := Perform(s, PutCall(ROOT, InDocs(README), readme)).0;
             SysOk(s1) && Perform(s1, PutCall(ROOT, InDocs(ROADMAP), roadmap)).1.Done?
    ensures var s1 := Perform(s, PutCall(ROOT, InDocs(README), readme)).0;
            var s2 := Perform(s1, PutCall(ROOT, InDocs(ROADMAP), roadmap)).0;
            (exists n :: HoldsAt(s2, InDocs(README), n, readme)) && exists n :: HoldsAt(s2, InDocs(ROADMAP), n, roadmap)
  {
    SeedNames();
    hide *;
    SeedHolds(s, InDocs(README), readme);
    var s1 := Perform(s, PutCall(ROOT, InDocs(README), readme)).0;
    SeedHolds(s1, InDocs(ROADMAP), roadmap);
    var n :| HoldsAt(s1, InDocs(README), n, readme);
    NamedBy(s1, n, readme);
    SeedKeeps(s1, InDocs(README), n, readme, DOCS, ROADMAP, roadmap);
  }

  // ---- the heap that booting needs ------------------------------------------

  /** A name right below the root. */
  function Below(w: string): (p: string)
    ensures '/' in p
  {
    "/" + w
  }

  lemma BelowLeads(t: Forest, w: string)
    requires Links(t) && IsName(w) && !Dots(w)
    ensures In(t, ROOT) && Leads(t, ROOT, Below(w), ROOT, w) && Faithful(Below(w))
  {
    var p := Below(w);
    assert p[0] == '/' && p[1..] == w;
    LastSlashIs(p, 0);
    LeadingSlash(t, ROOT, "");
    assert "/" + "" == "/" && LinkOk(t, ROOT);
    NothingLeft();
    WalkIs(t, ROOT, "");
    hide Links, Walk;
  }

  ghost predicate AllDirs(t: Forest) {
    forall n :: In(t, n) ==> t[n].dir
  }

  /** The root's entries are these, in order of age. */
  ghost predicate Entries(t: Forest, names: seq<string>) {
    && Ok(t) && AllDirs(t) && |t| == |names| + 1
    && forall c :: 1 <= c < |t| ==> t[c].parent == ROOT && t[c].name == names[c - 1]
  }

  lemma EntryAdded(t: Forest, t': Forest, names: seq<string>, w: string)
    requires Entries(t, names) && OneMore(t, t', ROOT, w, true)
    ensures Entries(t', names + [w])
  {
    hide Ok, Children;
    forall n | In(t, n) ensures t'[n].dir && t'[n].parent == t[n].parent && t'[n].name == t[n].name {
      assert SameNode(t[n], t'[n]);
    }
  }

  lemma EntryNew(t: Forest, names: seq<string>, w: string)
    requires Entries(t, names) && w !in names
    ensures NewName(t, ROOT, w)
  {
    hide Ok;
  }

  /** A new directory in the root: made exactly if a node fits. */
  lemma EntryMade(s: Fs, names: seq<string>, w: string)
    requires FsOk(s) && Entries(s.t, names) && w !in names && IsName(w) && !Dots(w)
    requires In(s.t, ROOT) && !Aliased(s.t, ROOT, Below(w))
    ensures var (r, ok) := MakeDir(s, ROOT, Below(w));
            && FsOk(r) && (ok <==> Room(s.h)) && (!ok ==> r == s)
            && (ok ==> Entries(r.t, names + [w]) && r.h == s.h.(current := r.h.current)
                       && r.h.current == s.h.current + NODE_STEP)
  {
    var p := Below(w);
    hide Below, MakeDir, Ok, Links, Aliased, Leads, NewName, Entries, OneMore;
    OkLinks(s.t);
    BelowLeads(s.t, w);
    EntryNew(s.t, names, w);
    MakeDirOk(s, ROOT, p);
    MakeDirExactly(s, ROOT, p);
    if MakeDir(s, ROOT, p).1 {
      MakeDirMakes(s, ROOT, p, ROOT, w);
      MakeDirTakes(s, ROOT, p);
      EntryAdded(s.t, MakeDir(s, ROOT, p).0.t, names, w);
    }
  }

  const MOUNT := "mount"
  const TMP := "tmp"

  lemma RootNames()
    ensures DOCS == Below("docs") && "/mount" == Below(MOUNT) && "/tmp" == Below(TMP)
    ensures IsName("docs") && IsName(MOUNT) && IsName(TMP) && !Dots("docs") && !Dots(MOUNT) && !Dots(TMP)
    ensures "docs" !in [] && MOUNT !in ["docs"] && TMP !in ["docs", MOUNT]
  {
    assert "docs"[0] == 'd' && MOUNT[0] == 'm' && TMP[0] == 't';
  }

  lemma RootServed(t: Forest, w: string)
    requires Links(t) && In(t, ROOT) && w in {"docs", MOUNT, TMP}
    ensures !Aliased(t, ROOT, Below(w))
  {
    var p := Below(w);
    assert Absolute(t, ROOT, p) == p;
    assert p[0] == '/' && p[1] == w[0];
    assert "/bin"[1] == 'b' && "/mount/cdrom"[6] == '/';
    hide Absolute, Links;
  }

  /** The three directories, one after the other. */
  ghost function ThreeDirs(s: Fs): (r: Fs)
    requires FsOk(s)
    ensures FsOk(r)
  {
    OkLinks(s.t);
    MakeDirOk(s, ROOT, Below("docs"));
    var s1 := MakeDir(s, ROOT, Below("docs")).0;
    MakeDirOk(s1, ROOT, Below(MOUNT));
    var s2 := MakeDir(s1, ROOT, Below(MOUNT)).0;
    MakeDirOk(s2, ROOT, Below(TMP));
    MakeDir(s2, ROOT, Below(TMP)).0
  }

  lemma RootStart(h: Arena)
    requires h.Ok()
    ensures FsOk(RootFs(h)) && Entries(RootFs(h).t, []) && In(RootFs(h).t, ROOT) && RootFs(h).h == h
    ensures Links(RootFs(h).t)
  {
    RootFsOk(h);
  }

  lemma EntriesAreDirs(t: Forest, names: seq<string>)
    requires Entries(t, names)
    ensures AllDirs(t)
  {
  }

  /** One of them. */
  lemma DirStep(s: Fs, names: seq<string>, w: string)
    requires FsOk(s) && Entries(s.t, names) && w in {"docs", MOUNT, TMP} && w !in names
    requires In(s.t, ROOT)
    ensures var (r, ok) := MakeDir(s, ROOT, Below(w));
            && FsOk(r) && (ok <==> Room(s.h)) && (!ok ==> r == s) && Links(r.t) && In(r.t, ROOT)
            && (ok ==> Entries(r.t, names + [w]) && r.h == s.h.(current := r.h.current)
                       && r.h.current == s.h.current + NODE_STEP)
  {
    hide MakeDir, Ok, Links, Entries, Aliased, Below, Room;
    RootNames();
    OkLinks(s.t);
    RootServed(s.t, w);
    EntryMade(s, names, w);
    MakeDirOk(s, ROOT, Below(w));
    OkLinks(MakeDir(s, ROOT, Below(w)).0.t);
  }

  const BOOT_DIRS: seq<string> := ["docs", MOUNT, TMP]

  /** All three are made if one more node fits before the last of them, or after it. */
  lemma DirsMade(h: Arena)
    requires h.Ok() && h.ready
    ensures FsOk(RootFs(h))
    ensures var r := ThreeDirs(RootFs(h));
            && FsOk(r) && AllDirs(r.t) && In(r.t, ROOT) && r.h == h.(current := r.h.current)
            && (Room(r.h) || h.current + 2 * NODE_STEP + NODE_SIZE <= h.limit ==>
                  Entries(r.t, BOOT_DIRS) && r.h.current == h.current + 3 * NODE_STEP)
  {
    hide MakeDir, FsOk, Ok, Links, Below, Entries, RootFs;
    var s, none := RootFs(h), [];
    RootStart(h);
    RootNames();
    DirStep(s, none, "docs");
    var (s1, made1) := MakeDir(s, ROOT, Below("docs"));
    var names1 := if made1 then ["docs"] else none;
    assert none + ["docs"] == ["docs"] && Entries(s1.t, names1);
    DirStep(s1, names1, MOUNT);
    var (s2, made2) := MakeDir(s1, ROOT, Below(MOUNT));
    var names2 := if made2 then names1 + [MOUNT] else names1;
    DirStep(s2, names2, TMP);
    assert ["docs"] + [MOUNT] == ["docs", MOUNT] && ["docs", MOUNT] + [TMP] == BOOT_DIRS;
    var (s3, made3) := MakeDir(s2, ROOT, Below(TMP));
    EntriesAreDirs(s3.t, if made3 then names2 + [TMP] else names2);
  }

  // ---- the seeds -----------------------------------------------------------

  /** The directory for the seeds is there, and has none of them. */
  ghost predicate SeedsNew(t: Forest, d: int) {
    && Ok(t) && In(t, ROOT) && Leads(t, ROOT, InDocs(README), d, README) && Leads(t, ROOT, InDocs(ROADMAP), d, ROADMAP)
    && NewName(t, d, README) && NewName(t, d, ROADMAP)
  }

  lemma DocsLead(t: Forest, w: string)
    requires Ok(t) && In(t, ROOT) && Entries(t, BOOT_DIRS) && IsName(w) && !Dots(w)
    ensures Leads(t, ROOT, InDocs(w), 1, w) && NewName(t, 1, w)
  {
    RootNames();
    SeedNames();
    SplitLast(DOCS, w);
    BelowLeads(t, "docs");
    assert Child(t, ROOT, "docs", 1);
    assert Extends(t, t);
    LeadsTo(t, t, ROOT, DOCS, ROOT, "docs", 1);
    hide Links, Ok, Below, ResolveFrom, SplitParent;
  }

  lemma PutIsPublish(s: Sys, path: string, b: seq<Byte>)
    requires SysOk(s) && |b| < USER_BASE && In(s.fs.t, ROOT)
    ensures FsOk(s.fs) && s.fs.h.ready && |s.mem| == USER_BASE
    ensures var (r, out), (q, ok) := Perform(s, PutCall(ROOT, path, b)), Publish(s, ROOT, path, b);
            r == q && (out.Done? <==> ok)
  {
    assert Possible(s, PutCall(ROOT, path, b));
    PerformIs(s, PutCall(ROOT, path, b));
    hide SysOk, Perform, Publish;
  }

  /** A new name in a directory: nothing resolves to it, and touching it takes one node. */
  lemma NewCosts(s: Fs, path: string, d: int, w: string)
    requires FsOk(s) && Links(s.t) && In(s.t, ROOT) && Leads(s.t, ROOT, path, d, w) && NewName(s.t, d, w) && '/' in path
    requires !Aliased(s.t, ROOT, path)
    ensures !NamesFile(s.t, ROOT, path) && (CanTouch(s, ROOT, path) <==> Room(s.h))
  {
    SplitResolves(s.t, ROOT, path);
    FoundExactly(s.t, d, w);
    assert forall e, v :: Leads(s.t, ROOT, path, e, v) ==> e == d && v == w;
    hide Links, Ok, Aliased, ResolveFrom, SplitParent, FindChild, NewName, Child;
    assert NewName(s.t, d, w) && FileThere(s.t, d, w) ==> exists c :: Child(s.t, d, w, c);
  }

  lemma DocsServed(t: Forest, w: string)
    requires Links(t) && In(t, ROOT)
    ensures !Aliased(t, ROOT, InDocs(w))
  {
    var p := InDocs(w);
    assert p[0] == '/' && p[1] == 'd' && "/bin"[1] == 'b' && "/mount/cdrom"[1] == 'm';
    assert Absolute(t, ROOT, p) == p;
    hide Absolute, Links;
  }

  /** A seed that is new is written exactly if its node, its bytes and their terminator fit. */
  lemma SeedWritten(s: Sys, d: int, w: string, b: seq<Byte>)
    requires SysOk(s) && |b| < USER_BASE && Links(s.fs.t) && In(s.fs.t, ROOT)
    requires Leads(s.fs.t, ROOT, InDocs(w), d, w) && NewName(s.fs.t, d, w)
    ensures var (r, out) := Perform(s, PutCall(ROOT, InDocs(w), b));
            && (out.Done? <==> s.fs.h.current + NODE_STEP + |b| + 1 <= s.fs.h.limit)
            && (out.Done? ==> r.fs.h == s.fs.h.(current := r.fs.h.current)
                              && r.fs.h.current == s.fs.h.current + NODE_STEP + RoundUp(|b| + 1))
  {
    var p := InDocs(w);
    hide SysOk, Perform, Publish, Leads, NewName, Links, RoundUp, InDocs, CanTouch, NamesFile;
    SysBasics(s);
    PutIsPublish(s, p, b);
    DocsServed(s.fs.t, w);
    NewCosts(s.fs, p, d, w);
    PublishExactly(s, ROOT, p, b);
  }

  /** Where all is directories, no seed is written without room for its node. */
  lemma SeedNeedsNode(s: Sys, w: string, b: seq<Byte>)
    requires SysOk(s) && |b| < USER_BASE && Links(s.fs.t) && In(s.fs.t, ROOT) && AllDirs(s.fs.t)
    ensures Perform(s, PutCall(ROOT, InDocs(w), b)).1.Done? ==> Room(s.fs.h)
  {
    var p := InDocs(w);
    PutIsPublish(s, p, b);
    PublishExactly(s, ROOT, p, b);
    hide SysOk, Perform, Publish, Leads, NewName, Links, RoundUp, InDocs, NamesFile, Aliased;
  }

  /** Writing one seed leaves the other new. */
  lemma OtherSeedNew(s: Sys, d: int, w: string, v: string, b: seq<Byte>)
    requires SysOk(s) && |b| < USER_BASE && Links(s.fs.t) && In(s.fs.t, ROOT) && w != v
    requires Leads(s.fs.t, ROOT, InDocs(w), d, w) && NewName(s.fs.t, d, w)
    requires Leads(s.fs.t, ROOT, InDocs(v), d, v) && NewName(s.fs.t, d, v)
    requires Perform(s, PutCall(ROOT, InDocs(w), b)).1.Done?
    ensures var t := Perform(s, PutCall(ROOT, InDocs(w), b)).0.fs.t;
            Links(t) && In(t, ROOT) && Leads(t, ROOT, InDocs(v), d, v) && NewName(t, d, v)
  {
    var p := InDocs(w);
    hide SysOk, Perform, Publish, RoundUp, InDocs, NamesFile, CanTouch, Kept, ResolveFrom, Leads, NewName, Links, Ok;
    SysBasics(s);
    PutIsPublish(s, p, b);
    var n, block := PublishIs(s, ROOT, p, b);
    var fs1 := Touch(s.fs, ROOT, p).0;
    TouchAdds(s.fs, ROOT, p, d, w);
    NotThere(s.fs.t, d, w);
    OtherStays(s.fs.t, fs1.t, d, w, v, InDocs(v), n, block, |b|);
  }

  lemma NotThere(t: Forest, d: int, w: string)
    requires NewName(t, d, w)
    ensures !FileThere(t, d, w)
  {
  }

  lemma OtherStays(t: Forest, t1: Forest, d: int, w: string, v: string, path: string, n: int, block: U32, size: U32)
    requires Ok(t) && Links(t) && In(t, ROOT) && Leads(t, ROOT, path, d, v) && NewName(t, d, v) && w != v
    requires OneMore(t, t1, d, w, false) && In(t1, n)
    ensures var r := Published(t1, n, block, size);
            Links(r) && In(r, ROOT) && Leads(r, ROOT, path, d, v) && NewName(r, d, v)
  {
    hide SplitParent, ResolveFrom, Children;
    var r := Published(t1, n, block, size);
    PublishedOk(t1, n, block, size);
    ExtendsTrans(t, t1, r);
    ResolveStays(t, r, ROOT, SplitParent(path).value.0);
    assert SameNode(t[d], r[d]);
    hide Ok;
    assert SameNode(t1[|t|], r[|t|]);
    forall c | In(t, c) ensures r[c].parent == t[c].parent && r[c].name == t[c].name && !Child(t, d, v, c) {
      assert SameNode(t[c], r[c]);
    }
  }

  lemma MkdirIs(s: Sys, p: string)
    requires SysOk(s) && Links(s.fs.t) && In(s.fs.t, ROOT)
    ensures var r := Perform(s, MkdirCall(ROOT, p)).0;
            && r == s.(fs := MakeDir(s.fs, ROOT, p).0)
            && SysOk(r) && Links(r.fs.t) && In(r.fs.t, ROOT)
  {
    var c := MkdirCall(ROOT, p);
    assert Possible(s, c);
    PerformIs(s, c);
    PerformOk(s, c);
    hide SysOk, Perform, MakeDir;
    SysBasics(Perform(s, c).0);
  }

  lemma FinallyStep(s: Sys, c: Call, rest: seq<Call>)
    requires SysOk(s) && SysOk(Perform(s, c).0)
    ensures Finally(s, [c] + rest) == Finally(Perform(s, c).0, rest)
  {
    hide SysOk, Perform;
    assert ([c] + rest)[1..] == rest;
  }

  lemma MkdirFirst(s: Sys, p: string, rest: seq<Call>)
    requires SysOk(s) && Links(s.fs.t) && In(s.fs.t, ROOT)
    ensures var r := s.(fs := MakeDir(s.fs, ROOT, p).0);
            SysOk(r) && Links(r.fs.t) && In(r.fs.t, ROOT) && Finally(s, [MkdirCall(ROOT, p)] + rest) == Finally(r, rest)
  {
    hide *;
    MkdirIs(s, p);
    FinallyStep(s, MkdirCall(ROOT, p), rest);
  }

  /** The two directories that are refused leave no trace. */
  lemma DirsAre(s: Sys)
    requires SysOk(s) && FsOk(s.fs) && Links(s.fs.t) && In(s.fs.t, ROOT)
    ensures Finally(s, BootDirs()).fs == ThreeDirs(s.fs)
  {
    hide SysOk, MakeDir, Finally, Below, FsOk, Links, Ok;
    RootNames();
    var none: seq<Call> := [];
    var e := [MkdirCall(ROOT, "/tmp")] + none;
    var d := [MkdirCall(ROOT, "/mount/cdrom")] + e;
    var c := [MkdirCall(ROOT, "/mount")] + d;
    var b := [MkdirCall(ROOT, DOCS)] + c;
    assert BootDirs() == [MkdirCall(ROOT, "/bin")] + b;
    VfsFailures.InitDirsRefused(s.fs, ROOT);
    MkdirFirst(s, "/bin", b);
    MkdirFirst(s, DOCS, c);
    var s1 := s.(fs := MakeDir(s.fs, ROOT, DOCS).0);
    MkdirFirst(s1, "/mount", d);
    var s2 := s1.(fs := MakeDir(s1.fs, ROOT, "/mount").0);
    VfsFailures.InitDirsRefused(s2.fs, ROOT);
    MkdirFirst(s2, "/mount/cdrom", e);
    MkdirFirst(s2, "/tmp", none);
    var s3 := s2.(fs := MakeDir(s2.fs, ROOT, "/tmp").0);
    assert Finally(s3, none) == s3 by { NothingDone(s3); }
  }

  lemma NothingDone(s: Sys)
    requires SysOk(s)
    ensures Finally(s, []) == s
  {
  }

  /** What the directories and the seeds take of the heap, but for the last rounding. */
  function BootSpace(readme: seq<Byte>, roadmap: seq<Byte>): nat {
    5 * NODE_STEP + RoundUp(|readme| + 1) + |roadmap| + 1
  }

  lemma WithDirsIs(h: Arena)
    requires h.Ok() && h.ready
    ensures FsOk(RootFs(h))
    ensures var s := WithDirs(h); s.fs == ThreeDirs(RootFs(h)) && Links(s.fs.t) && In(s.fs.t, ROOT)
  {
    hide SysOk, MakeDir, Finally, FsOk, Ok, Entries, AllDirs;
    RootStart(h);
    RootFsOk(h);
    FirstSysOk(RootFs(h));
    DirsAre(FirstSys(RootFs(h)));
    DirsMade(h);
    SysBasics(WithDirs(h));
  }

  /** Both seeds are written exactly if the heap has that much left after the root. */
  lemma SeedsWritten(h: Arena, readme: seq<Byte>, roadmap: seq<Byte>)
    requires h.Ok() && h.ready && |readme| < USER_BASE && |roadmap| < USER_BASE
    ensures var outs := Outcomes(WithDirs(h), BootFiles(readme, roadmap));
            outs[0].Done? && outs[1].Done? <==> h.current + BootSpace(readme, roadmap) <= h.limit
  {
    var s, one, two := WithDirs(h), PutCall(ROOT, InDocs(README), readme), PutCall(ROOT, InDocs(ROADMAP), roadmap);
    assert BootFiles(readme, roadmap) == [one, two];
    hide *;
    SeedNames();
    TwoCalls(s, one, two);
    WithDirsIs(h);
    DirsMade(h);
    SeedsFit(s, readme, roadmap, h);
  }

  lemma SeedsFit(s: Sys, readme: seq<Byte>, roadmap: seq<Byte>, h: Arena)
    requires SysOk(s) && Ok(s.fs.t) && Links(s.fs.t) && In(s.fs.t, ROOT) && AllDirs(s.fs.t)
    requires |readme| < USER_BASE && |roadmap| < USER_BASE
    requires s.fs.h == h.(current := s.fs.h.current)
    requires Room(s.fs.h) || h.current + 2 * NODE_STEP + NODE_SIZE <= h.limit ==>
               Entries(s.fs.t, BOOT_DIRS) && s.fs.h.current == h.current + 3 * NODE_STEP
    ensures var (s1, out) := Perform(s, PutCall(ROOT, InDocs(README), readme));
            && SysOk(s1)
            && (out.Done? && Perform(s1, PutCall(ROOT, InDocs(ROADMAP), roadmap)).1.Done?
                <==> h.current + BootSpace(readme, roadmap) <= h.limit)
  {
    hide SysOk, Ok, Links, AllDirs, Entries, Perform, InDocs, Leads, NewName, RoundUp;
    SeedNames();
    var c := PutCall(ROOT, InDocs(README), readme);
    PerformOk(s, c);
    SeedNeedsNode(s, README, readme);
    var (s1, out) := Perform(s, c);
    if Entries(s.fs.t, BOOT_DIRS) {
      DocsLead(s.fs.t, README);
      DocsLead(s.fs.t, ROADMAP);
      SeedWritten(s, 1, README, readme);
      if out.Done? {
        OtherSeedNew(s, 1, README, ROADMAP, readme);
        SeedWritten(s1, 1, ROADMAP, roadmap);
      }
    }
    RoundsUp(|readme| + 1);
  }

  lemma RoundsUp(n: nat)
    ensures n <= RoundUp(n) < n + UNIT
  {
  }

  /** If there is that much, both seeds are read back from the booted machine. */
  lemma BootedFiles(h: Arena, readme: seq<Byte>, roadmap: seq<Byte>)
    requires h.Ok() && h.ready && |readme| < USER_BASE && |roadmap| < USER_BASE
    requires h.current + BootSpace(readme, roadmap) <= h.limit
    ensures var s := Booted(h, readme, roadmap);
            (exists n :: HoldsAt(s, InDocs(README), n, readme)) && exists n :: HoldsAt(s, InDocs(ROADMAP), n, roadmap)
  {
    var s, one, two := WithDirs(h), PutCall(ROOT, InDocs(README), readme), PutCall(ROOT, InDocs(ROADMAP), roadmap);
    assert BootFiles(readme, roadmap) == [one, two] && Booted(h, readme, roadmap) == Finally(s, [one, two]);
    hide *;
    SeedsWritten(h, readme, roadmap);
    TwoCalls(s, one, two);
    SeedsHold(s, readme, roadmap);
  }

  lemma DirThere(h: Arena, w: string) returns (n: int)
    requires h.Ok() && h.ready && h.current + 2 * NODE_STEP + NODE_SIZE <= h.limit && w in {"docs", MOUNT, TMP}
    ensures var t := WithDirs(h).fs.t; Ok(t) && In(t, ROOT) && ResolveFrom(t, ROOT, Below(w)) == Some(n) && t[n].dir
  {
    hide MakeDir, FsOk, Below, Ok, Links, ResolveFrom, Faithful;
    WithDirsIs(h);
    DirsMade(h);
    RootNames();
    var t := WithDirs(h).fs.t;
    n := if w == "docs" then 1 else if w == MOUNT then 2 else 3;
    assert Entries(t, BOOT_DIRS) && Child(t, ROOT, w, n);
    hide SysOk, Entries;
    SysBasics(WithDirs(h));
    FsIsOk(WithDirs(h).fs);
    BelowLeads(t, w);
    assert Extends(t, t);
    LeadsTo(t, t, ROOT, Below(w), ROOT, w, n);
  }

  lemma FsIsOk(s: Fs)
    requires FsOk(s)
    ensures Ok(s.t)
  {
  }

  /** The three directories that are not refused are there, if the heap has room for their nodes. */
  lemma BootedDirs(h: Arena, readme: seq<Byte>, roadmap: seq<Byte>, w: string)
    requires h.Ok() && h.ready && h.current + 2 * NODE_STEP + NODE_SIZE <= h.limit && w in {"docs", MOUNT, TMP}
    ensures var t := Booted(h, readme, roadmap).fs.t;
            Links(t) && In(t, ROOT) && exists n :: ResolveFrom(t, ROOT, Below(w)) == Some(n) && t[n].dir
  {
    hide *;
    var s, r := WithDirs(h), Booted(h, readme, roadmap);
    var n := DirThere(h, w);
    BootedKept(h, readme, roadmap);
    OkLinks(r.fs.t);
    ResolveStays(s.fs.t, r.fs.t, ROOT, Below(w));
    DirKept(s.fs.t, r.fs.t, n);
  }

  lemma BootedKept(h: Arena, readme: seq<Byte>, roadmap: seq<Byte>)
    requires h.Ok() && h.ready
    ensures var t, t' := WithDirs(h).fs.t, Booted(h, readme, roadmap).fs.t;
            Ok(t') && Extends(t, t') && (In(t, ROOT) ==> In(t', ROOT))
  {
    hide SysOk, Finally;
    FilesTrip.FinallyKept(WithDirs(h), BootFiles(readme, roadmap));
  }

  lemma DirKept(t: Forest, t': Forest, n: int)
    requires Extends(t, t') && In(t, n) && t[n].dir
    ensures In(t', n) && t'[n].dir
  {
    assert SameNode(t[n], t'[n]);
  }

  lemma SeedNames()
    ensures InDocs(ROADMAP) == DOCS + "/" + ROADMAP && DOCS != "" && |DOCS| < PATH_MAX
    ensures IsName(README) && !Dots(README) && IsName(ROADMAP) && !Dots(ROADMAP) && README != ROADMAP
  {
    assert README[1] == 'e' && ROADMAP[1] == 'o';
  }

  lemma NamedBy(s: Sys, n: int, b: seq<Byte>)
    requires HoldsAt(s, InDocs(README), n, b)
    ensures In(s.fs.t, n) && s.fs.t[n].name == README
  {
    SeedNames();
    ResolvedName(s.fs.t, DOCS, README, n);
  }
}
