/** When an opening, a creation and a removal are granted, told from the names, the tables and the maps, and what a
    transfer does to the sizes of files. */
module Outcomes {
  import opened Const
  import opened BlockDevice
  import opened SectorMap
  import opened Words
  import opened Inodes
  import opened Directory
  import opened DirectoryMap
  import opened FileTable
  import opened Volume
  import opened FileSystem
  import opened FileSystemRuns
  import opened FileBytes
  import opened Descriptors
  import Untar

  // ---------------------------------------------------------------- openings

  /** The i-node is in memory, or there is an entry for it. */
  predicate Findable(x: State, nr: nat) {
    exists p :: 0 <= p < |x.inodes| && (x.inodes[p].cnt == 0 || x.inodes[p].num == nr)
  }

  lemma FindableIff(x: State, nr: nat)
    ensures EntryFor(x.inodes, nr) < |x.inodes| <==> Findable(x, nr)
  {
    var e := EntryFor(x.inodes, nr);
    if e < |x.inodes| { assert x.inodes[e].cnt == 0 || x.inodes[e].num == nr; }
  }

  /** A terminal of the tty driver, the root directory or a regular file (include/sys/const.h:118-129). */
  predicate KnownKind(nr: nat, r: Inode) {
    var kind := r.mode / 0x1000 % 0x10;
    if kind == 2 then r.startSect / 0x100 % 0x100 == 4 else if kind == 4 then nr == 1 else r.mode == 0x8000
  }

  /** The number that a name stands for when the directory is the map `m`; the empty name is the directory itself. */
  function NumberFor(m: map<seq<byte>, word>, name: seq<byte>): nat
    requires |name| <= MAX_FILENAME_LEN
  {
    if name == [] then 1 else if Pad(name) in m then m[Pad(name)] else 0
  }

  lemma NumberShown(x: State, m: map<seq<byte>, word>, path: seq<byte>)
    requires Shows(x.v, m) && Stripped(path).Some?
    ensures PathInode(x.v, path) == NumberFor(m, Stripped(path).value)
  {
    hide Pad, Stripped, Search, DirOk, Bound;
    var name := Stripped(path).value;
    if name != [] { PathShown(x.v, m, path, name); }
  }

  /** With room, and with O_RDWR alone, `open` answers a descriptor exactly when the path strips to the empty name or
      to one that is there, its i-node is in memory or finds an entry, and it is of a kind that can be opened. */
  lemma OpensIff(x: State, m: map<seq<byte>, word>, sb: SuperBlock, pid: nat, path: seq<byte>)
    requires Shows(x.v, m) && RoomToOpen(x, pid, path) && |x.inodes| == NR_INODE
    ensures !OpenRefused(x.v, Tab(x), pid, path, 2) && !OpenStops(x.v, Tab(x), sb, pid, path, 2) <==>
      && Stripped(path).Some?
      && var nr := NumberFor(m, Stripped(path).value);
        1 <= nr <= 4096 && Findable(x, nr) && KnownKind(nr, x.v.recs[nr - 1])
  {
    hide Pad, Stripped, Search, DirOk, Bound, EntryFor, PathInode, NumberFor, Findable;
    RoomFound(x, pid, path);
    if Stripped(path).Some? {
      NumberShown(x, m, path);
      FindableIff(x, PathInode(x.v, path));
    }
  }

  /** Room for one more file: a number, an entry for its i-node, and 512 sectors at the first free place. */
  ghost predicate RoomToCreate(x: State, sb: SuperBlock) {
    && (exists n :: 0 <= n < 4096 && n !in x.v.inodeMap)
    && (exists p :: 0 <= p < |x.inodes| && x.inodes[p].cnt == 0)
    && (exists b :: 0 <= b && b + 512 <= sb.nrSmapSects * 4096 && FirstGap(x.v.sectMap, b))
  }

  /** Bit `b` begins the first gap of the map, and the gap is 512 bits long at least. */
  ghost predicate FirstGap(bits: set<int>, b: int) {
    && (forall k :: 0 <= k < b ==> k in bits) && (forall k :: b <= k < b + 512 ==> k !in bits)
  }

  /** With room for a descriptor, and with O_CREAT, `open` answers a descriptor exactly when the name can be created and
      there is room for the file. */
  lemma CreatesIff(x: State, m: map<seq<byte>, word>, sb: SuperBlock, pid: nat, path: seq<byte>, flags: nat)
    requires Shows(x.v, m) && RoomToOpen(x, pid, path) && |x.inodes| == NR_INODE && flags % 2 == 1
    ensures !OpenRefused(x.v, Tab(x), pid, path, flags) && !OpenStops(x.v, Tab(x), sb, pid, path, flags) <==>
      Untar.Creatable(m.Keys, path) && RoomToCreate(x, sb)
  {
    hide Pad, Stripped, Search, DirOk, Bound, PathInode, FreeFrom, FirstFit, RoomToCreate, CanAllocate;
    RoomFound(x, pid, path);
    CreatableIff(x, m, pid, path);
    RoomIff(x, sb);
    if Stripped(path).Some? { NumberShown(x, m, path); }
  }

  lemma RoomIff(x: State, sb: SuperBlock)
    requires |x.inodes| == NR_INODE
    ensures RoomToCreate(x, sb) <==> CanAllocate(x.v, sb) && FreeFrom(x.inodes, 0) < NR_INODE
  {
    hide FirstGap;
    forall b: int
      ensures FirstFit(x.v.sectMap, MapBits(sb), 512, b) <==>
        0 <= b && b + 512 <= sb.nrSmapSects * 4096 && FirstGap(x.v.sectMap, b)
    {
      GapIsFit(x.v.sectMap, MapBits(sb), b);
    }
    assert FreeFrom(x.inodes, 0) < NR_INODE ==> x.inodes[FreeFrom(x.inodes, 0)].cnt == 0;
    if RoomToCreate(x, sb) {
      var b :| 0 <= b && b + 512 <= sb.nrSmapSects * 4096 && FirstGap(x.v.sectMap, b);
      assert FirstFit(x.v.sectMap, MapBits(sb), NR_DEFAULT_FILE_SECTS, b);
    }
    if CanAllocate(x.v, sb) {
      var b :| FirstFit(x.v.sectMap, MapBits(sb), NR_DEFAULT_FILE_SECTS, b);
      assert FirstGap(x.v.sectMap, b);
    }
  }

  lemma GapIsFit(bits: set<int>, total: nat, b: int)
    ensures FirstFit(bits, total, 512, b) <==> 0 <= b && b + 512 <= total && FirstGap(bits, b)
  {
  }

  // ---------------------------------------------------------------- removals

  /** A name is removed exactly when it stands for a regular file that nobody has open; else `unlink` answers -1. */
  lemma UnlinkIff(x: State, m: map<seq<byte>, word>, sb: SuperBlock, path: seq<byte>, name: seq<byte>)
    requires Sound(x, sb) && Shows(x.v, m) && NamesFile(path, name) && |path| < 128
    requires Pad(name) in m && m[Pad(name)] <= 4096 && Findable(x, m[Pad(name)])
    ensures var nr := m[Pad(name)];
      1 <= nr && (UnlinkGranted(x.v, Tab(x), path) <==> x.v.recs[nr - 1].mode == 0x8000 && NobodyHas(x, nr))
    ensures UnlinkRefused(x.v, Tab(x), path) <==> !UnlinkGranted(x.v, Tab(x), path)
  {
    hide Pad, Stripped, Search, DirOk, Bound, EntryFor, PathInode, Consistent, DescCounts, InodeCounts, Text, Findable;
    var nr := m[Pad(name)];
    PathShown(x.v, m, path, name);
    BoundNumber(x.v.slots, Pad(name), nr);
    NotJustSlash(path);
    FindableIff(x, nr);
    Fetched(x, sb, nr);
  }

  /** No slot leads to it and nothing else counts on it. */
  predicate NobodyHas(x: State, nr: nat) {
    forall p :: 0 <= p < |x.inodes| ==> x.inodes[p].cnt == 0 || x.inodes[p].num != nr
  }

  lemma NotJustSlash(path: seq<byte>)
    requires Stripped(path).Some? && Stripped(path).value != []
    ensures Text(path) != [SLASH]
  {
    if Text(path) == [SLASH] {
      OnlySlash(path);
      assert false;
    }
  }

  lemma OnlySlash(path: seq<byte>)
    requires Text(path) == [SLASH]
    ensures Stripped(path) == Some([])
  {
    assert path[0] == SLASH && Text(path) == [SLASH] + Text(path[1..]);
    assert Text(path[1..]) == [];
  }

  /** What `get_inode` finds. */
  lemma Fetched(x: State, sb: SuperBlock, nr: nat)
    requires Sound(x, sb) && 1 <= nr <= |x.v.recs| && EntryFor(x.inodes, nr) < |x.inodes| == |x.held|
    ensures var e := Acquire(Tab(x), nr).inodes[EntryFor(x.inodes, nr)];
      e.rec == x.v.recs[nr - 1] && (e.cnt > 1 <==> !NobodyHas(x, nr))
  {
    hide Consistent, DescCounts, InodeCounts;
    var p := EntryFor(x.inodes, nr);
    if x.inodes[p].cnt > 0 { CachedNumber(Tab(x), p); }
  }

  // ---------------------------------------------------------------- what they leave on the device

  /** A creation takes the least number that is not in use, and the first gap of the sector map for the file; the other
      files keep their records. */
  lemma CreatedDevice(x: State, c: Change, y: State, sb: SuperBlock, b: int, n: nat)
    requires Sound(x, sb) && By(x, c, y, sb) && c.Creating? && 2 <= n <= 4096
    ensures 1 < c.nr < 4096 && |x.v.recs| == |y.v.recs| == 4096
    ensures (0 < b < c.nr ==> b in x.v.inodeMap) && c.nr !in x.v.inodeMap && FirstGap(x.v.sectMap, c.first)
    ensures b in y.v.inodeMap <==> b in x.v.inodeMap || b == c.nr
    ensures b in y.v.sectMap <==> b in x.v.sectMap || c.first <= b < c.first + 512
    ensures y.v.recs[n - 1] ==
      if n == c.nr then Inode(0x8000, 0, c.first - 1 + sb.n1stSect, 512) else x.v.recs[n - 1]
  {
    hide Inv, Consistent, RootPinned, PathInode, Stripped, Enter, Connect, Place, Grown;
    GapIsFit(x.v.sectMap, MapBits(sb), c.first);
  }

  /** A removal gives the number back and the sectors of the file, and leaves an empty record and an empty slot; the
      other files keep theirs. */
  lemma RemovedDevice(x: State, c: Change, y: State, sb: SuperBlock, b: int, n: nat, m: nat)
    requires Sound(x, sb) && By(x, c, y, sb) && c.Unlinking? && 2 <= n <= 4096 && m < 16384
    ensures DirShape(x.v) && |y.v.recs| == 4096 && |y.v.slots| == 16384 && HasEntry(x.v, PathInode(x.v, c.path))
    ensures var nr := PathInode(x.v, c.path);
      && 1 < nr <= 4096
      && (b in y.v.inodeMap <==> b in x.v.inodeMap && b != nr)
      && (b in y.v.sectMap <==> b in x.v.sectMap && !InExtent(sb, x.v.recs[nr - 1], b))
      && y.v.recs[n - 1] == (if n == nr then Inode(0, 0, 0, 0) else x.v.recs[n - 1])
      && y.v.slots[m] == (if m == FindNr(x.v.slots, nr) then Slot(0, Zeros(12)) else x.v.slots[m])
  {
    hide Inv, Consistent, RootPinned, PathInode, Stripped, FindNr, Used, Runs.Step, Runs.Enabled, UnlinkGranted;
  }

  // ---------------------------------------------------------------- sizes

  /** A file's record changes only by a transfer through a slot that leads to it: when that ends behind the end of the
      file, the file ends there from then on. */
  lemma TurnSize(x: State, c: Change, y: State, sb: SuperBlock, n: nat)
    requires Sound(x, sb) && By(x, c, y, sb) && InUse(x.v, n) && InUse(y.v, n) && n != ROOT_INODE
    ensures c.Moving? ==> PosOf(Tab(x), c.s) + c.moved < WORD
    ensures Rec(y.v, n) ==
      if c.Moving? && NumberOf(Tab(x), c.s) == n && Rec(x.v, n).size < PosOf(Tab(x), c.s) + c.moved
      then Rec(x.v, n).(size := PosOf(Tab(x), c.s) + c.moved) else Rec(x.v, n)
  {
    hide Inv, ExtentsOk, SmapExact, NamesOk, RootPinned, PathInode, Leads, Acquire, EntryFor, Connect, Stripped, FindNr,
         Enter, Runs.Step, Runs.Enabled, Detached, OpenedOld, UnlinkRefused, UnlinkGranted, CanEnter, Used;
    match c
    case Creating(path, s, f, flags, nr, first, p, name, m) =>
      NumberUnused(x.v, y.v, Tab(x), m, sb, nr, first, p, name);
    case Unlinking(path) =>
    case Moving(s, moved) => MovedSize(x, c, y, sb, n);
    case _ =>
  }

  lemma MovedSize(x: State, c: Change, y: State, sb: SuperBlock, n: nat)
    requires Sound(x, sb) && c.Moving? && By(x, c, y, sb) && InUse(x.v, n)
    ensures UsedSlot(Tab(x), c.s) && PosOf(Tab(x), c.s) + c.moved < WORD && |y.v.recs| >= n
    ensures Rec(y.v, n) ==
      if NumberOf(Tab(x), c.s) == n && Rec(x.v, n).size < PosOf(Tab(x), c.s) + c.moved
      then Rec(x.v, n).(size := PosOf(Tab(x), c.s) + c.moved) else Rec(x.v, n)
  {
    hide Targets, ExtentsOk, SmapExact, NamesOk;
    SlotRecord(x, sb, c.s);
    assert Tab(y).recs == y.v.recs && Tab(x).recs == x.v.recs;
  }
}
