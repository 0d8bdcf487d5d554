/** A run in which a 12-character name makes the file system inconsistent: on a device on which the grid ends exactly
    at cmd.tar first fit runs on behind it, so there can be more than 256 files, and the low byte that the name
    clears turns the number of one entry into that of another. */
module HarmfulName {
  import opened Const
  import opened BlockDevice
  import opened SectorMap
  import opened Words
  import opened Directory
  import opened DirectoryMap
  import opened FileTable
  import opened Volume
  import opened UniformExtents
  import opened MakeFs
  import opened FileSystem
  import opened FileSystemRuns
  import Runs = FileTableRuns

  // ---------------------------------------------------------------- single steps

  /** Only the root directory is in memory. */
  lemma IdleTables(x: State, sb: SuperBlock)
    requires Sound(x, sb) && Idle(x)
    ensures |x.inodes| == NR_INODE && |x.descs| == NR_FILE_DESC && x.inodes[ROOT_ENTRY].num == ROOT_INODE
    ensures forall p :: 0 <= p < NR_INODE ==> x.inodes[p].cnt == Runs.Pin(p)
    ensures forall f :: 0 <= f < NR_FILE_DESC ==> x.descs[f].inode == None
    ensures FreeFrom(x.inodes, 0) == 1 && forall num :: num != ROOT_INODE ==> EntryFor(x.inodes, num) == 1
  {
    hide Consistent, CacheOk, CachedFrom, FreeFrom, EntryFor;
    var t := Tab(x);
    assert forall o :: o in multiset(t.filp) ==> o == None;
    assert forall o :: o in multiset(Targets(t.filp, t.descs)) ==> o == None;
    IdleEntries(x.inodes);
  }

  lemma IdleEntries(inodes: seq<CachedInode>)
    requires |inodes| == NR_INODE && inodes[ROOT_ENTRY].num == ROOT_INODE
    requires forall p :: 0 <= p < NR_INODE ==> inodes[p].cnt == Runs.Pin(p)
    ensures FreeFrom(inodes, 0) == 1 && forall num :: num != ROOT_INODE ==> EntryFor(inodes, num) == 1
  {
    assert inodes[0].cnt == 1 && inodes[1].cnt == 0;
    forall num | num != ROOT_INODE ensures EntryFor(inodes, num) == 1 {
      NotFound(inodes, num, 1);
    }
    NotFound(inodes, 0, 1);
  }

  /** The state with these tables, when they agree with the disk. */
  ghost function StateWith(v: Vol, u: Tables): (y: State)
    ensures u.recs == v.recs && u.live == v.inodeMap - {0} ==> Tab(y) == u
  {
    State(v, u.inodes, u.descs, u.filp, u.held)
  }

  /** A fresh name can be created when number and sectors are there. */
  ghost predicate Creatable(x: State, sb: SuperBlock, nr: nat, first: int, name: seq<byte>) {
    && Sound(x, sb) && Idle(x) && Geometry(sb) && sb.n1stSect > 0 && Roomy(x.v)
    && 1 < nr < NR_RECORDS && 1 <= first <= MapBits(sb)
    && FirstFit(x.v.inodeMap, NR_RECORDS, 1, nr) && FirstFit(x.v.sectMap, MapBits(sb), NR_DEFAULT_FILE_SECTS, first)
    && NamesFile(name, name) && PathInode(x.v, name) == 0
  }

  lemma CreateNow(x: State, sb: SuperBlock, nr: nat, first: int, name: seq<byte>) returns (y: State, c: Change)
    requires Creatable(x, sb, nr, first, name)
    ensures By(x, c, y, sb) && c.Creating? && c.name == name && c.nr == nr && c.path == name
    ensures Nameable(Allocated(x.v, sb, nr, first), name) && y.v == Named(Allocated(x.v, sb, nr, first), nr, name)
    ensures y.filp == x.filp[0 := Some(0)] && y.held == x.held
  {
    hide Inv, Consistent, FirstFit, FreeFrom, EntryFor, DirOk, Bound, Pad, Stripped, FindNr, Enter, NameOver;
    var v, t := x.v, Tab(x);
    IdleTables(x, sb);
    CreatedShape(v, sb, nr, first, name);
    var w := Named(Allocated(v, sb, nr, first), nr, name);
    var f := WithFile(t, sb, nr, first, 1);
    var k := Sync(f, ROOT_ENTRY, RootWith(f, Grown(v.slots, Entries(v))));
    var u := Connect(k, 0, 0, 1, O_CREAT);
    y := StateWith(w, u);
    RootRecord(t, sb);
    CreatedTables(v, w, t, u, sb, nr, first, name);
    c := Creating(name, 0, 0, O_CREAT, nr, first, 1, name, k);
    assert Tab(y) == u;
    assert CreatedAndConnected(v, w, t, u, sb, name, 0, 0, O_CREAT, nr, first, 1, name, k);
    assert x.held[1 := x.held[1] + 1][1 := x.held[1]] == x.held;
  }

  lemma CreatedShape(v: Vol, sb: SuperBlock, nr: nat, first: int, name: seq<byte>)
    requires Consistent(v, sb) && Geometry(sb) && sb.n1stSect > 0 && Roomy(v) && 1 < nr < NR_RECORDS
      && 1 <= first <= MapBits(sb)
    requires |name| <= MAX_FILENAME_LEN
    ensures Nameable(v, name) && Nameable(Allocated(v, sb, nr, first), name)
    ensures Allocated(v, sb, nr, first).slots == v.slots && Entries(Allocated(v, sb, nr, first)) == Entries(v)
    ensures Grown(v.slots, Entries(v)) <= DIR_SLOTS
  {
    hide FindNr, ExtentsOk, SmapExact;
    AllocatedRoom(v, sb, nr, first);
  }

  /** The tables after the creation have the records and the numbers of the disk. */
  lemma CreatedTables(v: Vol, w: Vol, t: Tables, u: Tables, sb: SuperBlock, nr: nat, first: int, name: seq<byte>)
    requires Geometry(sb) && sb.n1stSect > 0 && 1 < nr < NR_RECORDS && 1 <= first <= MapBits(sb) && Roomy(v)
      && |name| <= MAX_FILENAME_LEN
    requires Nameable(Allocated(v, sb, nr, first), name) && w == Named(Allocated(v, sb, nr, first), nr, name)
    requires Allocated(v, sb, nr, first).slots == v.slots && Entries(Allocated(v, sb, nr, first)) == Entries(v)
    requires t.recs == v.recs && t.live == v.inodeMap - {0} && |t.inodes| == NR_INODE == |t.held|
      && Grown(v.slots, Entries(v)) <= DIR_SLOTS
    requires t.inodes[ROOT_ENTRY].num == ROOT_INODE && t.inodes[ROOT_ENTRY].rec == t.recs[0]
    requires |t.filp| == NR_FILP && |t.descs| == NR_FILE_DESC
    requires var f := WithFile(t, sb, nr, first, 1);
      var k := Sync(f, ROOT_ENTRY, RootWith(f, Grown(v.slots, Entries(v)))); u == Connect(k, 0, 0, 1, O_CREAT)
    ensures u.recs == w.recs && u.live == w.inodeMap - {0}
  {
    hide FindNr, Enter;
  }

  lemma CloseNow(y: State, sb: SuperBlock) returns (z: State)
    requires Inv(Tab(y)) && |y.filp| == NR_FILP && y.filp[0].Some?
    ensures By(y, Closing(0), z, sb) && z.v == y.v && z.filp == y.filp[0 := None] && z.held == y.held
  {
    hide Inv;
    DetachKeeps(Tab(y), 0);
    SlotShape(Tab(y), 0);
    z := StateWith(y.v, Detach(Tab(y), 0));
  }

  /** A regular file that is alone in memory can be unlinked, when it is not the last entry. */
  lemma UnlinkNow(x: State, sb: SuperBlock, nr: nat, name: seq<byte>, m: map<seq<byte>, word>) returns (y: State)
    requires Sound(x, sb) && Idle(x) && Shows(x.v, m) && NamesFile(name, name) && Pad(name) in m && m[Pad(name)] == nr
    requires ROOT_INODE != nr && InUse(x.v, nr) && Rec(x.v, nr).mode == I_REGULAR && nr < WORD
    requires FindNr(x.v.slots, nr) + 1 < Entries(x.v)
    ensures By(x, Unlinking(name), y, sb) && y.v == Unnamed(Freed(x.v, sb, nr), nr) && Idle(y)
    ensures DirShape(x.v) && PathInode(x.v, name) == nr
  {
    hide Inv, Consistent, FreeFrom, CachedFrom, EntryFor, DirOk, Bound, Pad, Stripped, FindNr, Shows, PathInode;
    var v, t := x.v, Tab(x);
    IdleTables(x, sb);
    PathShown(v, m, name, name);
    ShapeOf(v, sb);
    TableShape(t);
    RootRecord(t, sb);
    NamePath(name);
    var a := Acquire(t, nr);
    assert a.inodes[1].cnt == 1 && a.inodes[1].rec == t.recs[nr - 1] && a.held[1] == 1 by { AcquireIdle(t, nr); }
    assert !InTheWay(v, t, name);
    RemovalShape(v, sb, nr);
    var u := Wiped(a, 1, nr);
    y := StateWith(Unnamed(Freed(v, sb, nr), nr), u);
    UnlinkedTables(v, t, u, sb, nr);
    assert Tab(y) == u;
    RootPinnedStays(t, a, u, nr);
    UnlinkIsStep(v, t, u, sb, name);
    assert Unlinked(v, y.v, t, u, sb, name);
    AcquireFrame(t, nr);
  }

  lemma NamePath(name: seq<byte>)
    requires NamesFile(name, name)
    ensures |name| < MAX_PATH && Text(name) != [SLASH]
  {
  }

  lemma AcquireIdle(t: Tables, nr: nat)
    requires |t.inodes| == NR_INODE == |t.held| && 1 <= nr <= |t.recs| && EntryFor(t.inodes, nr) == 1
    requires t.inodes[1].cnt == 0 == t.held[1]
    ensures var a := Acquire(t, nr); a.inodes[1].cnt == 1 && a.inodes[1].rec == t.recs[nr - 1] && a.held[1] == 1
  {
    hide FreeFrom;
  }

  lemma AcquireFrame(t: Tables, nr: nat)
    requires |t.inodes| == NR_INODE == |t.held| && 1 <= nr <= |t.recs| && EntryFor(t.inodes, nr) == 1
    ensures var a := Acquire(t, nr); a.filp == t.filp && a.descs == t.descs && a.held == t.held[1 := t.held[1] + 1]
  {
  }

  lemma RootPinnedStays(t: Tables, a: Tables, u: Tables, nr: nat)
    requires |t.inodes| == NR_INODE == |t.held| && 1 <= nr <= |t.recs| && EntryFor(t.inodes, nr) == 1
      && a == Acquire(t, nr)
    requires a.inodes[1].cnt == 1 && a.held[1] > 0 && u == Wiped(a, 1, nr)
    ensures u.inodes[ROOT_ENTRY] == t.inodes[ROOT_ENTRY]
  {
  }

  /** The tables after the removal have the records and the numbers of the disk. */
  lemma UnlinkedTables(v: Vol, t: Tables, u: Tables, sb: SuperBlock, nr: nat)
    requires t.recs == v.recs && t.live == v.inodeMap - {0} && |t.inodes| == NR_INODE == |t.held|
    requires 1 < nr < NR_RECORDS == |v.recs| && EntryFor(t.inodes, nr) == 1 && DirShape(v) && DirShape(Freed(v, sb, nr))
    requires Acquire(t, nr).inodes[1].cnt == 1 && Acquire(t, nr).held[1] > 0 && u == Wiped(Acquire(t, nr), 1, nr)
    requires Freed(v, sb, nr).slots == v.slots && Entries(Freed(v, sb, nr)) == Entries(v)
      && FindNr(v.slots, nr) + 1 < Entries(v)
    ensures u.recs == Unnamed(Freed(v, sb, nr), nr).recs && u.live == Unnamed(Freed(v, sb, nr), nr).inodeMap - {0}
  {
    hide FindNr, Used;
  }

  // ---------------------------------------------------------------- names

  /** Two letters for the `i`-th file. */
  function Name(i: nat): (n: seq<byte>)
    requires i < 0x100
    ensures |n| == 2
  {
    [ValByte(0x61 + i % 0x10), ValByte(0x61 + i / 0x10)]
  }

  /** Twelve times z. */
  const LONG: seq<byte> := [0x7A, 0x7A, 0x7A, 0x7A, 0x7A, 0x7A, 0x7A, 0x7A, 0x7A, 0x7A, 0x7A, 0x7A]

  lemma Letter(v: nat)
    requires 0x61 <= v < 0x72
    ensures ByteVal(ValByte(v)) == v && ValByte(v) != 0 && ValByte(v) != SLASH && ValByte(v) != 0x2E
  {
    ByteRound(v);
    assert ByteVal(0) == 0 && ByteVal(SLASH) == 0x2F && ByteVal(0x2E) == 0x2E;
  }

  lemma NameFacts(i: nat)
    requires i < 0x100
    ensures NamesFile(Name(i), Name(i)) && ByteVal(Name(i)[0]) == 0x61 + i % 0x10
      && ByteVal(Name(i)[1]) == 0x61 + i / 0x10
    ensures Pad(Name(i))[0] == Name(i)[0] && Pad(Name(i))[1] == Name(i)[1] != 0 && Pad(Name(i))[2] == 0
  {
    hide ByteVal, ValByte, Stripped;
    Letter(0x61 + i % 0x10);
    Letter(0x61 + i / 0x10);
    PlainPath(Name(i));
  }

  lemma NamesApart(i: nat, j: nat)
    requires i < 0x100 && j < 0x100 && i != j
    ensures Pad(Name(i)) != Pad(Name(j)) && Pad(Name(i)) != LONG == Pad(LONG) && NamesFile(LONG, LONG)
  {
    hide ByteVal, ValByte, Pad, Name;
    NameFacts(i);
    NameFacts(j);
    LongFacts();
    assert i == i / 0x10 * 0x10 + i % 0x10 && j == j / 0x10 * 0x10 + j % 0x10;
  }

  lemma LongFacts()
    ensures Pad(LONG) == LONG && NamesFile(LONG, LONG)
  {
    hide Stripped;
    PlainPath(LONG);
    assert LONG + Zeros(0) == LONG;
  }

  /** The names that are not taken after `k` files, and the numbers of those that are. */
  ghost predicate NamesLeft(m: map<seq<byte>, word>, k: nat) {
    && LONG !in m && (forall i :: k <= i < 0x100 ==> Pad(Name(i)) !in m)
    && forall i :: 0 <= i < k && i < 0x100 ==> Pad(Name(i)) in m && m[Pad(Name(i))] == 6 + i
  }

  lemma BootNamesLeft()
    ensures NamesLeft(BootNames(), 0)
  {
    hide ByteVal, ValByte, Name, Stripped;
    BootBytes();
    LongFacts();
    forall i | 0 <= i < 0x100 ensures Pad(Name(i)) !in BootNames() {
      NameFacts(i);
    }
  }

  lemma BootBytes()
    ensures forall m :: 0 <= m < 5 ==> Pad(InitialName(m))[0] != 0x7A
    ensures forall m :: 0 <= m < 5 ==> Pad(InitialName(m))[1] == 0 || Pad(InitialName(m))[2] != 0
  {
    forall m | 0 <= m < 5
      ensures Pad(InitialName(m))[0] != 0x7A && (Pad(InitialName(m))[1] == 0 || Pad(InitialName(m))[2] != 0)
    {
      var n := InitialName(m);
      assert Pad(n)[0] == n[0];
      if m > 0 { assert Pad(n)[2] == n[2]; } else { assert Pad(n)[1] == 0; }
    }
  }

  lemma NamesNext(m: map<seq<byte>, word>, k: nat)
    requires NamesLeft(m, k) && k < 0x100
    ensures NamesLeft(m[Pad(Name(k)) := 6 + k], k + 1)
  {
    hide Pad, Name;
    forall i | 0 <= i < 0x100 && i != k ensures Pad(Name(i)) != Pad(Name(k)) && Pad(Name(k)) != LONG {
      NamesApart(k, i);
    }
    NamesApart(k, if k == 0 then 1 else 0);
  }

  // ---------------------------------------------------------------- filling the device

  /** A layout with a sector map of 253 sectors: the grid ends where cmd.tar begins. */
  const TIGHT := SuperBlock(1, 253, 256, 512)

  /** 62 files fit in front of cmd.tar, which has the bits from 32257 to 34304; the others go behind it. */
  function First(k: nat): nat { if k < 62 then 513 + 512 * k else 34305 + 512 * (k - 62) }

  ghost function Taken(k: nat): set<int> {
    if k <= 62 then Range(0, 513 + 512 * k) + Range(32257, 2048) else Range(0, 34305 + 512 * (k - 62))
  }

  /** The devices with this layout have from 252 * 4096 to 253 * 4096 - 1 sectors. */
  lemma TightDevices(nrSects: nat)
    ensures LayoutOf(nrSects) == TIGHT <==> 252 * SECTOR_BITS <= nrSects < 253 * SECTOR_BITS
    ensures 252 * SECTOR_BITS <= nrSects ==> INSTALL_START_SECT + INSTALL_NR_SECTS < nrSects - NR_SECTS_FOR_LOG
  {
  }

  lemma TightFacts()
    ensures Geometry(TIGHT) && MapBits(TIGHT) == 1036288 && CmdBit(TIGHT) == 32257 && !Gap(TIGHT)
  {
  }

  lemma TakenNext(k: nat)
    requires k < 0x100
    ensures FirstFit(Taken(k), 1036288, 512, First(k)) && Taken(k) + Range(First(k), 512) == Taken(k + 1)
    ensures 1 <= First(k) <= 1036288
  {
    hide Taken;
    TakenIs(k);
    TakenIs(k + 1);
  }

  lemma TakenIs(k: nat)
    ensures forall b :: b in Taken(k) <==> 0 <= b < First(k) || (k < 62 && 32257 <= b < 34305)
  {
  }

  lemma NumberNext(k: nat)
    requires k < 0x100
    ensures FirstFit(Range(0, 6 + k), NR_RECORDS, 1, 6 + k) && Range(0, 6 + k) + {6 + k} == Range(0, 7 + k)
  {
  }

  /** `k` files have been created: numbers, sectors, slots and records are used from the first on. */
  ghost predicate Filled(v: Vol, k: nat) {
    && |v.recs| == NR_RECORDS && |v.slots| == DIR_SLOTS && k <= 0x100
    && v.inodeMap == Range(0, 6 + k) && v.sectMap == Taken(k) && Entries(v) == 5 + k
    && (forall j :: 0 <= j < 5 + k ==> v.slots[j].nr == j + 1)
    && (forall n :: 6 <= n < 6 + k ==> Rec(v, n) == NewRecord(TIGHT, First(n - 6)))
  }

  lemma MadeFilled(v: Vol)
    requires MadeVol(v, TIGHT)
    ensures Filled(v, 0)
  {
    hide InitialName, Pad, MadeVol, ImapOk;
    MadeRecords(v, TIGHT);
    MadeParts(v);
  }

  lemma MadeParts(v: Vol)
    requires MadeVol(v, TIGHT)
    ensures |v.recs| == NR_RECORDS && |v.slots| == DIR_SLOTS && v.inodeMap == Range(0, 6) && v.sectMap == Taken(0)
    ensures forall m :: 0 <= m < 5 ==> v.slots[m].nr == m + 1
  {
    hide InitialName, Pad;
    assert forall m :: 0 <= m < 5 ==> v.slots[m] == InitialSlot(m);
  }

  lemma FilledNext(v: Vol, w: Vol, k: nat, name: seq<byte>)
    requires Filled(v, k) && k < 0x100 && |name| == 2 && Nameable(v, name)
      && Nameable(Allocated(v, TIGHT, 6 + k, First(k)), name)
    requires w == Named(Allocated(v, TIGHT, 6 + k, First(k)), 6 + k, name)
    ensures Filled(w, k + 1)
  {
    hide FindNr, NameOver, Taken, First;
    TightFacts();
    TakenNext(k);
    NumberNext(k);
    assert Place(v.slots, Entries(v)) == 5 + k;
    NamedSlots(v, w, TIGHT, 6 + k, First(k), name);
    FilledRecords(v, w, k, name);
  }

  lemma FilledRecords(v: Vol, w: Vol, k: nat, name: seq<byte>)
    requires Filled(v, k) && k < 0x100 && Nameable(v, name) && Nameable(Allocated(v, TIGHT, 6 + k, First(k)), name)
    requires Geometry(TIGHT) && 0 <= First(k) <= MapBits(TIGHT)
      && w == Named(Allocated(v, TIGHT, 6 + k, First(k)), 6 + k, name)
    ensures w.inodeMap == v.inodeMap + {6 + k} && w.sectMap == v.sectMap + Range(First(k), 512)
      && |w.recs| == NR_RECORDS
    ensures Rec(w, 6 + k) == NewRecord(TIGHT, First(k)) && forall n :: 6 <= n < 6 + k ==> Rec(w, n) == Rec(v, n)
  {
    hide FindNr, Enter, Taken, First;
  }

  // ---------------------------------------------------------------- the run

  /** A run from `x0` that has created `k` files and opens nothing, and the names it leaves. */
  ghost predicate Progress(x0: State, run: seq<State>, cs: seq<Change>, m: map<seq<byte>, word>, k: nat) {
    && FileSystemRuns.Run(run, cs, TIGHT) && run[0] == x0 && SparesUpTo(run, cs, |cs|) && Kept(run, cs)
    && var x := run[|cs|]; Sound(x, TIGHT) && Idle(x) && Shows(x.v, m) && NamesLeft(m, k) && Filled(x.v, k)
  }

  /** cmd.tar is not removed. */
  predicate Kept(run: seq<State>, cs: seq<Change>) {
    |run| > |cs| && forall i :: 0 <= i < |cs| ==> KeepsBoot(run[i], cs[i])
  }

  lemma RunOn(run: seq<State>, cs: seq<Change>, sb: SuperBlock, c: Change, y: State)
    requires FileSystemRuns.Run(run, cs, sb) && By(run[|cs|], c, y, sb)
    ensures FileSystemRuns.Run(run + [y], cs + [c], sb)
    ensures SparesUpTo(run, cs, |cs|) ==> SparesUpTo(run + [y], cs + [c], |cs|)
    ensures SparesUpTo(run, cs, |cs|) && Spares(run[|cs|], c) ==> SparesUpTo(run + [y], cs + [c], |cs| + 1)
    ensures Kept(run, cs) && KeepsBoot(run[|cs|], c) ==> Kept(run + [y], cs + [c])
  {
    hide By, Spares, KeepsBoot;
    var r, d := run + [y], cs + [c];
    forall i | 0 <= i < |d| ensures By(r[i], d[i], r[i + 1], sb) {
      assert i < |cs| ==> By(run[i], cs[i], run[i + 1], sb);
    }
    assert forall i :: 0 <= i < |cs| ==> r[i] == run[i] && d[i] == cs[i];
  }

  /** The two letters are a harmless name. */
  lemma ShortSpares(x: State, c: Change)
    requires c.Creating? && |c.name| == 2 && Roomy(x.v)
    ensures Spares(x, c) && Orderly(x, c)
  {
    hide FindNr;
  }

  /** One more file is created and closed. */
  lemma Another(x0: State, run: seq<State>, cs: seq<Change>, m: map<seq<byte>, word>, k: nat)
    returns (run': seq<State>, cs': seq<Change>, m': map<seq<byte>, word>)
    requires Progress(x0, run, cs, m, k) && k < 0x100
    ensures Progress(x0, run', cs', m', k + 1)
  {
    hide By, Spares, Sound, Idle, Shows, NamesLeft, Filled, SparesUpTo, Kept, Nameable, Named, Allocated,
         Name, Pad, Orderly;
    var x := run[|cs|];
    ReadyToCreate(x, m, k);
    var y, c := CreateNow(x, TIGHT, 6 + k, First(k), Name(k));
    NameFacts(k);
    StepOn(x, y, c, m, k);
    var z := CloseAfter(x, y, c, m, k);
    RunOn(run, cs, TIGHT, c, y);
    RunOn(run + [y], cs + [c], TIGHT, Closing(0), z);
    run', cs', m' := run + [y] + [z], cs + [c] + [Closing(0)], m[Pad(Name(k)) := 6 + k];
    NamesNext(m, k);
    assert run'[|cs'|] == z && run'[0] == x0;
  }

  lemma ReadyToCreate(x: State, m: map<seq<byte>, word>, k: nat)
    requires Sound(x, TIGHT) && Idle(x) && Shows(x.v, m) && NamesLeft(m, k) && Filled(x.v, k) && k < 0x100
    ensures Creatable(x, TIGHT, 6 + k, First(k), Name(k))
  {
    hide Sound, Idle, Name, Pad, Taken, First, DirOk, Bound, FirstFit, PathInode;
    TightFacts();
    TakenNext(k);
    NumberNext(k);
    NameFacts(k);
    PathShown(x.v, m, Name(k), Name(k));
  }

  lemma StepOn(x: State, y: State, c: Change, m: map<seq<byte>, word>, k: nat)
    requires Sound(x, TIGHT) && Shows(x.v, m) && Filled(x.v, k) && k < 0x100 && By(x, c, y, TIGHT)
    requires c.Creating? && c.name == Name(k) && c.nr == 6 + k
    requires Geometry(TIGHT) && 0 <= First(k) <= MapBits(TIGHT)
      && Nameable(Allocated(x.v, TIGHT, 6 + k, First(k)), Name(k))
    requires y.v == Named(Allocated(x.v, TIGHT, 6 + k, First(k)), 6 + k, Name(k))
    ensures Spares(x, c) && Sound(y, TIGHT) && Shows(y.v, m[Pad(Name(k)) := 6 + k]) && Filled(y.v, k + 1)
      && KeepsBoot(x, c)
  {
    hide Sound, Idle, Name, Pad, Taken, First, DirOk, Bound, FindNr, Named, Allocated, Orderly;
    assert Nameable(x.v, Name(k)) by { NameableNow(x, c, y); }
    ShortSpares(x, c);
    ChangeSoundIff(x, c, y, TIGHT);
    ChangeNames(x, c, y, TIGHT, m);
    FilledNext(x.v, y.v, k, Name(k));
  }

  lemma NameableNow(x: State, c: Change, y: State)
    requires By(x, c, y, TIGHT) && c.Creating?
    ensures Nameable(x.v, c.name)
  {
    hide Leads, PathInode, Connect, Named, Allocated, Nameable, Stripped;
  }

  lemma CloseAfter(x: State, y: State, c: Change, m: map<seq<byte>, word>, k: nat) returns (z: State)
    requires Sound(y, TIGHT) && Idle(x) && y.filp == x.filp[0 := Some(0)] && y.held == x.held
    ensures By(y, Closing(0), z, TIGHT) && z.v == y.v && Idle(z) && Sound(z, TIGHT) && Spares(y, Closing(0))
      && KeepsBoot(y, Closing(0))
  {
    hide Inv, Consistent, RootPinned, By;
    z := CloseNow(y, TIGHT);
    assert Spares(y, Closing(0));
    ChangeSoundIff(y, Closing(0), z, TIGHT);
    assert z.filp == x.filp;
  }

  /** `k` files can be created. */
  lemma {:induction false} Fill(x0: State, k: nat) returns (run: seq<State>, cs: seq<Change>, m: map<seq<byte>, word>)
    requires Sound(x0, TIGHT) && Idle(x0) && MadeVol(x0.v, TIGHT) && Shows(x0.v, BootNames()) && k <= 0x100
    ensures Progress(x0, run, cs, m, k)
  {
    hide Sound, Idle, Shows, MadeVol, NamesLeft, Filled, By, BootNames;
    if k == 0 {
      MadeFilled(x0.v);
      BootNamesLeft();
      run, cs, m := [x0], [], BootNames();
    } else {
      run, cs, m := Fill(x0, k - 1);
      run, cs, m := Another(x0, run, cs, m, k - 1);
    }
  }

  // ---------------------------------------------------------------- the harm

  /** 253 files have the numbers from 6 to 258, in the slots from 5 to 257; number 257 has been removed. */
  ghost predicate Holed(v: Vol) {
    && DirShape(v) && Entries(v) == 258 && v.inodeMap == Range(0, 259) - {257}
    && v.sectMap == Taken(253) - Range(First(251), 512)
    && forall j :: 0 <= j < 258 ==> v.slots[j].nr == if j == 256 then 0 else j + 1
  }

  lemma FilledFacts(v: Vol)
    requires Filled(v, 253)
    ensures FindNr(v.slots, 257) == 256 && InUse(v, 257) && Rec(v, 257).mode == I_REGULAR && DirShape(v)
    ensures FirstBit(TIGHT, Rec(v, 257)) == First(251) && Rec(v, 257).nrSects == 512
  {
    hide Taken;
    TightFacts();
    assert v.slots[256].nr == 257;
    assert forall j :: 0 <= j < 256 ==> v.slots[j].nr != 257;
    assert Rec(v, 257) == NewRecord(TIGHT, First(257 - 6));
  }

  lemma FilledHoled(v: Vol, w: Vol)
    requires Filled(v, 253) && FindNr(v.slots, 257) == 256 && InUse(v, 257) && DirShape(v)
    requires FirstBit(TIGHT, Rec(v, 257)) == First(251) && Rec(v, 257).nrSects == 512
    requires DirShape(Freed(v, TIGHT, 257)) && Freed(v, TIGHT, 257).slots == v.slots
      && w == Unnamed(Freed(v, TIGHT, 257), 257)
    ensures Holed(w)
  {
    hide Taken, First, FindNr, Used;
    UnnamedSlots(v, Freed(v, TIGHT, 257), w, TIGHT, 257);
    assert w.inodeMap == v.inodeMap - {257} && w.sectMap == v.sectMap - Range(First(251), 512);
  }

  /** In this state the long name takes number 257 and slot 256, and what it leaves of number 258 is 256. */
  lemma HoledFits(v: Vol)
    requires Holed(v)
    ensures FirstFit(v.inodeMap, NR_RECORDS, 1, 257) && FirstFit(v.sectMap, 1036288, 512, First(251)) && Roomy(v)
  {
    hide Taken, First, FindNr, Range;
    FirstValues();
    TakenIs(253);
    SectorsFit(v.sectMap, Taken(253));
    NumbersFit(v.inodeMap);
  }

  lemma FirstValues()
    ensures First(251) == 131073 && First(253) == 132097
  {
  }

  lemma SectorsFit(bits: set<int>, taken: set<int>)
    requires (forall b :: b in taken <==> 0 <= b < 132097) && bits == taken - Range(131073, 512)
    ensures FirstFit(bits, 1036288, 512, 131073)
  {
  }

  lemma NumbersFit(bits: set<int>)
    requires bits == Range(0, 259) - {257}
    ensures FirstFit(bits, NR_RECORDS, 1, 257)
  {
  }

  lemma HoledHarm(v: Vol)
    requires Holed(v)
    ensures Roomy(v) && !Harmless(v, LONG)
  {
    hide Taken, First, FindNr;
    assert v.slots[256].nr == 0 && v.slots[255].nr == 256 && v.slots[257].nr == 258;
    assert FindNr(v.slots, 0) == 256 by { assert forall j :: 0 <= j < 256 ==> v.slots[j].nr != 0; }
    assert Place(v.slots, Entries(v)) == 256 && SpoiledNr(v) == 256;
  }

  lemma HoleReached(x0: State) returns (run: seq<State>, cs: seq<Change>, m: map<seq<byte>, word>)
    requires Sound(x0, TIGHT) && Idle(x0) && MadeVol(x0.v, TIGHT) && Shows(x0.v, BootNames())
    ensures FileSystemRuns.Run(run, cs, TIGHT) && run[0] == x0 && SparesUpTo(run, cs, |cs|) && Kept(run, cs)
    ensures var y := run[|cs|]; Sound(y, TIGHT) && Idle(y) && Shows(y.v, m) && LONG !in m && Holed(y.v)
  {
    hide Sound, Idle, Shows, MadeVol, By, BootNames, Filled, Holed, SparesUpTo, Kept, Spares, Name, Pad,
         Orderly, KeepsBoot, Unnamed, Freed;
    run, cs, m := Fill(x0, 253);
    var x := run[|cs|];
    FilledFacts(x.v);
    NameFacts(251);
    assert Entries(x.v) == 258 by { FilledEntries(x.v); }
    var y := UnlinkNow(x, TIGHT, 257, Name(251), m);
    RemovalShape(x.v, TIGHT, 257);
    FilledHoled(x.v, y.v);
    RemovalOrderly(x, Name(251));
    ChangeSoundIff(x, Unlinking(Name(251)), y, TIGHT);
    ChangeNames(x, Unlinking(Name(251)), y, TIGHT, m);
    RunOn(run, cs, TIGHT, Unlinking(Name(251)), y);
    run, cs, m := run + [y], cs + [Unlinking(Name(251))], m - {Pad(Name(251))};
  }

  lemma FilledEntries(v: Vol)
    requires Filled(v, 253)
    ensures Entries(v) == 258
  {
  }

  lemma RemovalOrderly(x: State, name: seq<byte>)
    requires DirShape(x.v) && NamesFile(name, name) && PathInode(x.v, name) == 257
    requires FindNr(x.v.slots, 257) + 1 < Entries(x.v)
    ensures Orderly(x, Unlinking(name)) && Spares(x, Unlinking(name)) && KeepsBoot(x, Unlinking(name))
  {
    hide FindNr, PathInode;
  }

  /** From the state in which `InitFs` leaves such a device, cleared before: 253 files are created, one is removed,
      and a file with a 12-character name is created. Every state is sound but the last. cmd.tar is never removed. */
  lemma HarmHappens(x0: State) returns (run: seq<State>, cs: seq<Change>)
    requires Sound(x0, TIGHT) && Idle(x0) && MadeVol(x0.v, TIGHT) && Shows(x0.v, BootNames())
    ensures FileSystemRuns.Run(run, cs, TIGHT) && run[0] == x0 && Kept(run, cs) && |cs| > 0
    ensures SoundUpTo(run, TIGHT, |cs| - 1) && !Sound(run[|cs|], TIGHT)
    ensures var c := cs[|cs| - 1]; c.Creating? && c.name == LONG && !Spares(run[|cs| - 1], c)
  {
    hide Sound, Idle, Shows, MadeVol, By, BootNames, Holed, SparesUpTo, Kept, Spares, KeepsBoot;
    var m;
    run, cs, m := HoleReached(x0);
    var y := run[|cs|];
    HoledCreatable(y, m);
    var z, c := CreateNow(y, TIGHT, 257, First(251), LONG);
    NotSpared(y, c);
    ChangeSoundIff(y, c, z, TIGHT);
    RunSoundIff(run, cs, TIGHT, |cs|);
    RunOn(run, cs, TIGHT, c, z);
    assert forall i :: 0 <= i <= |cs| ==> (run + [z])[i] == run[i];
    run, cs := run + [z], cs + [c];
  }

  lemma HoledCreatable(y: State, m: map<seq<byte>, word>)
    requires Sound(y, TIGHT) && Idle(y) && Shows(y.v, m) && LONG !in m && Holed(y.v)
    ensures Creatable(y, TIGHT, 257, First(251), LONG)
  {
    hide Sound, Idle, Shows, Holed, FirstFit, Pad, PathInode;
    TightFacts();
    HoledFits(y.v);
    LongFacts();
    PathShown(y.v, m, LONG, LONG);
  }

  lemma NotSpared(y: State, c: Change)
    requires Holed(y.v) && c.Creating? && c.name == LONG
    ensures !Spares(y, c) && KeepsBoot(y, c)
  {
    hide Holed, Harmless;
    HoledHarm(y.v);
  }
}
