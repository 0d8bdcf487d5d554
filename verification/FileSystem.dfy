/** The file system task: its tables and the disk under them, and the requests it serves. Each request is
    tied to what it does to the tables (module FileTable) and to the disk (module Volume). */
module FileSystem {
  import opened Const
  import opened BlockDevice
  import opened SectorMap
  import opened Words
  import opened Inodes
  import opened Directory
  import opened DirectoryMap
  import opened FileTable
  import opened ReadWrite
  import opened Volume
  import opened VolumeDisk
  import Runs = FileTableRuns

  /** What the caller gets back; `Stop` is a failed assertion, a panic, or the use of a null pointer. */
  datatype Reply = Value(n: int) | Stop

  const O_CREAT := 1
  const O_RDWR := 2
  const MAX_PATH := 128
  /** `root_inode`, the entry that `init_fs` takes and never gives back. */
  const ROOT_ENTRY: nat := 0

  /** The i-node a path leads to, 0 when it leads nowhere (fs/misc.c:66-98). */
  function PathInode(v: Vol, path: seq<byte>): word
    requires |v.recs| == NR_RECORDS && |v.slots| == DIR_SLOTS && Entries(v) < DIR_SLOTS
  {
    match Stripped(path)
    case None => 0
    case Some(name) => if |name| == 0 then ROOT_INODE else Search(v.slots, Entries(v), Pad(name))
  }

  /** The path leads nowhere or to an i-node in use. */
  predicate Leads(v: Vol, path: seq<byte>) {
    && |v.recs| == NR_RECORDS && |v.slots| == DIR_SLOTS && Entries(v) < DIR_SLOTS
    && (PathInode(v, path) == 0 || InUse(v, PathInode(v, path)))
  }

  /** The number the path leads to, if any, is one of the i-node array. */
  predicate Charted(v: Vol, path: seq<byte>) {
    && |v.recs| == NR_RECORDS && |v.slots| == DIR_SLOTS && Entries(v) < DIR_SLOTS
    && PathInode(v, path) <= NR_RECORDS
  }

  /** The slot behind the last entry, which the search compares too, has the name and a number not in use. */
  predicate Stale(v: Vol, name: seq<byte>)
    requires |v.recs| == NR_RECORDS && |v.slots| == DIR_SLOTS && Entries(v) < DIR_SLOTS && |name| <= MAX_FILENAME_LEN
  {
    && name != [] && Entries(v) < Probed(Entries(v)) && FindName(v.slots, Pad(name)) == Entries(v)
    && v.slots[Entries(v)].nr != 0 && !InUse(v, v.slots[Entries(v)].nr)
  }

  /** A path leads to an i-node that is not in use exactly when it has the name of such a slot. */
  lemma LeadsIff(v: Vol, sb: SuperBlock, path: seq<byte>)
    requires Consistent(v, sb)
    ensures |v.recs| == NR_RECORDS && |v.slots| == DIR_SLOTS && Entries(v) < DIR_SLOTS
    ensures !Leads(v, path) <==> Stripped(path).Some? && Stale(v, Stripped(path).value)
  {
    hide Pad, Stripped, Probed, FindName;
    var r := Stripped(path);
    if r.Some? && r.value != [] {
      FirstName(v.slots, Probed(Entries(v)), Pad(r.value));
    }
  }

  lemma FirstName(s: seq<Slot>, n: nat, key: seq<byte>)
    requires n <= |s|
    ensures FindName(s[..n], key) == Min(FindName(s, key), n)
  {
    hide FindName;
    var a, b := FindName(s[..n], key), FindName(s, key);
    assert forall k :: 0 <= k < n ==> s[..n][k] == s[k];
  }

  /** In a consistent file system every path does, unless the slot after the last entry has its name. */
  lemma AlwaysLeads(v: Vol, sb: SuperBlock, path: seq<byte>)
    requires Consistent(v, sb) && v.slots[Entries(v)].nr == 0
    ensures Leads(v, path)
  {
    hide FindName, Pad, Stripped;
  }

  ghost function TablesOf(inodes: seq<CachedInode>, descs: seq<Desc>, filp: seq<Option<nat>>, v: Vol,
                          held: seq<nat>): Tables {
    Tables(inodes, descs, filp, v.recs, v.inodeMap - {0}, held)
  }

  /** The root directory is pinned, and its entry says where it is and how long. */
  ghost predicate RootPinned(t: Tables, sb: SuperBlock) {
    && |t.inodes| == NR_INODE == |t.held| && t.held[ROOT_ENTRY] > 0 && t.inodes[ROOT_ENTRY].num == ROOT_INODE
    && t.inodes[ROOT_ENTRY].rec.startSect == sb.n1stSect
    && t.inodes[ROOT_ENTRY].rec.size % DIR_ENTRY_SIZE == 0 && t.inodes[ROOT_ENTRY].rec.size / DIR_ENTRY_SIZE < DIR_SLOTS
  }

  /** The pinned entry is the record on disk. */
  lemma RootRecord(t: Tables, sb: SuperBlock)
    requires Inv(t) && RootPinned(t, sb)
    ensures t.inodes[ROOT_ENTRY].cnt > 0 && |t.recs| > 0 && t.inodes[ROOT_ENTRY].rec == t.recs[ROOT_INODE - 1]
      && ROOT_INODE in t.live
  {
  }

  class Server {
    const dev: Disk
    const sb: SuperBlock
    const inodes: array<CachedInode>
    const descs: array<Desc>
    const filp: array<Option<nat>>
    /** The references to each i-node entry that no `filp` slot holds. */
    ghost var held: seq<nat>

    ghost predicate Objects()
      reads this, dev
    {
      && dev.Valid() && OnDevice(sb, dev.data.Length) && |held| == NR_INODE
      && inodes.Length == NR_INODE && descs.Length == NR_FILE_DESC && filp.Length == NR_FILP
    }

    ghost function V(): Vol
      requires Objects()
      reads this, dev, dev.data
    {
      VolAt(dev.data[..], sb)
    }

    ghost function T(): Tables
      requires Objects()
      reads this, dev, dev.data, inodes, descs, filp
    {
      TablesOf(inodes[..], descs[..], filp[..], V(), held)
    }

    ghost predicate Valid()
      reads this, dev, dev.data, inodes, descs, filp
    {
      Objects() && Inv(T()) && RootPinned(T(), sb)
    }

    /** `init_fs` (fs/main.c:103-129) after `mkfs`: empty tables, and the root directory in the first entry. */
    constructor (disk: Disk, layout: SuperBlock)
      requires disk.Valid() && OnDevice(layout, disk.data.Length)
      requires Consistent(VolAt(disk.data[..], layout), layout)
      modifies disk.fsbuf
      ensures Valid() && dev == disk && sb == layout && fresh(inodes) && fresh(descs) && fresh(filp)
      ensures held == seq(NR_INODE, p => if p == ROOT_ENTRY then 1 else 0)
      ensures forall s :: 0 <= s < NR_FILP ==> filp[s] == None
    {
      dev, sb := disk, layout;
      inodes := new CachedInode[NR_INODE](p => CachedInode(NO_RECORD, 0, 0));
      descs := new Desc[NR_FILE_DESC](f => Desc(0, 0, 0, None));
      filp := new Option<nat>[NR_FILP](s => None);
      held := seq(NR_INODE, p => 0);
      new;
      hide VolAt, Inv, Consistent, EntryFor, Acquire, RootPinned;
      ghost var t := T();
      NothingOpen(t);
      RootUsable(V(), sb);
      FirstEntry(t.inodes);
      var p, panic := GetInode(ROOT_INODE);
      RootTaken(t, sb);
    }

    /** `get_inode` (fs/main.c:280-315). */
    method GetInode(num: nat) returns (p: Option<nat>, panic: bool)
      requires Objects() && num <= NR_RECORDS
      modifies this`held, inodes, dev.fsbuf
      ensures Objects() && V() == old(V()) && dev.data[..] == old(dev.data[..])
      ensures num == 0 ==> p == None && !panic && T() == old(T())
      ensures num > 0 ==> (panic <==> EntryFor(old(inodes[..]), num) == NR_INODE) && (panic ==> T() == old(T()))
      ensures num > 0 && !panic ==> p == Some(EntryFor(old(inodes[..]), num)) && T() == Acquire(old(T()), num)
    {
      hide CachedFrom, FreeFrom, EntryFor, VolAt;
      if num == 0 {
        return None, false;
      }
      var q, k := NR_INODE, 0;
      ghost var was := inodes[..];
      while k < NR_INODE
        invariant 0 <= k <= NR_INODE && inodes[..] == was && 0 <= q <= NR_INODE
        invariant forall j :: 0 <= j < k ==> was[j].cnt == 0 || was[j].num != num
        invariant if q < NR_INODE then q < k && was[q].cnt == 0 && forall j :: 0 <= j < q ==> was[j].cnt > 0
          else forall j :: 0 <= j < k ==> was[j].cnt > 0
      {
        if inodes[k].cnt > 0 {
          if inodes[k].num == num {
            FoundAt(was, num, k);
            inodes[k] := inodes[k].(cnt := inodes[k].cnt + 1);
            held := held[k := held[k] + 1];
            return Some(k), false;
          }
        } else if q == NR_INODE {
          q := k;
        }
        k := k + 1;
      }
      NotFound(was, num, q);
      if q == NR_INODE {
        return None, true;
      }
      var x := LoadInode(dev, sb, num);
      RecordIs(dev.data[..], sb, num);
      RecsAre(dev.data[..], sb);
      inodes[q] := CachedInode(x, 1, num);
      held := held[q := held[q] + 1];
      return Some(q), false;
    }

    /** `put_inode` (fs/main.c:370-373). */
    method PutInode(p: nat)
      requires Objects() && p < NR_INODE && inodes[p].cnt > 0 && held[p] > 0
      modifies this`held, inodes
      ensures Objects() && T() == Release(old(T()), p)
    {
      hide VolAt;
      inodes[p] := inodes[p].(cnt := inodes[p].cnt - 1);
      held := held[p := held[p] - 1];
    }

    /** Fields of an i-node in memory change, and `sync_inode` writes them back (fs/main.c:317-328). */
    method UpdateInode(p: nat, rec: Inode)
      requires Objects() && p < NR_INODE && 1 <= inodes[p].num <= NR_RECORDS
      modifies inodes, dev.data, dev.fsbuf
      ensures Objects() && T() == Sync(old(T()), p, rec)
      ensures V() == old(V()).(recs := old(V()).recs[inodes[p].num - 1 := rec])
      ensures Agree(dev.data[..], old(dev.data[..]), sb.n1stSect * SECTOR_SIZE, dev.data.Length)
      ensures RecordWritten(old(dev.data[..]), dev.data[..], sb, inodes[p].num, rec)
    {
      hide VolAt, Splice, InodeBytes;
      RecsAre(dev.data[..], sb);
      ghost var d := dev.data[..];
      inodes[p] := inodes[p].(rec := rec);
      StoreInode(dev, sb, inodes[p].num, inodes[p].rec);
      SpliceRecord(d, sb, inodes[p].num, rec);
      SpliceAgrees(d, InodeOff(sb, inodes[p].num), InodeBytes(rec), sb.n1stSect * SECTOR_SIZE, |d|);
    }

    /** `search_file` (fs/misc.c:66-98). */
    method SearchPath(path: seq<byte>) returns (nr: word)
      requires Valid()
      modifies dev.fsbuf
      ensures Valid() && T() == old(T()) && V() == old(V()) && |V().recs| == NR_RECORDS && |V().slots| == DIR_SLOTS
      ensures Entries(V()) < DIR_SLOTS && nr == PathInode(V(), path)
    {
      hide Inv, Pad, Lookup, Stripped;
      RecsAre(dev.data[..], sb);
      RootRecord(T(), sb);
      var name := StripPath(path);
      if name.None? {
        return 0;
      }
      if |name.value| == 0 {
        return inodes[ROOT_ENTRY].num;
      }
      var root := inodes[ROOT_ENTRY].rec;
      nr := SearchFile(dev, root.startSect, root.size / DIR_ENTRY_SIZE, Pad(name.value));
      SlotsAre(dev.data[..], sb);
    }

    /** The first descriptor number of process `pid` that is free (fs/open.c:58-66). */
    method FindFd(pid: nat) returns (fd: nat)
      requires Objects() && pid < NR_SLOTS
      ensures fd == FreeFd(Row(filp[..], pid))
    {
      ghost var row := Row(filp[..], pid);
      fd := 0;
      while fd < NR_FILES
        invariant 0 <= fd <= NR_FILES && forall i :: 0 <= i < fd ==> row[i].Some?
      {
        assert row[fd] == filp[pid * NR_FILES + fd];
        if filp[pid * NR_FILES + fd] == None {
          break;
        }
        fd := fd + 1;
      }
    }

    /** The first free entry of the descriptor table (fs/open.c:68-73). */
    method FindDesc() returns (f: nat)
      requires Objects()
      ensures f == FreeDesc(descs[..])
    {
      f := 0;
      while f < NR_FILE_DESC
        invariant 0 <= f <= NR_FILE_DESC && forall i :: 0 <= i < f ==> descs[i].inode.Some?
      {
        if descs[f].inode.None? {
          break;
        }
        f := f + 1;
      }
    }

    /** The bits of a new file: `alloc_imap_bit` and `alloc_smap_bit` (fs/open.c:158-163). It fails when no run of
        sectors fits. A full i-node map gives number 0, and the sectors are taken all the same. */
    method AllocBits() returns (ok: bool, nr: nat, sect: int)
      requires Objects() && Consistent(V(), sb)
      modifies dev.data, dev.fsbuf
      ensures Objects()
      ensures ok <==> exists first :: FirstFit(old(V()).sectMap, MapBits(sb), NR_DEFAULT_FILE_SECTS, first)
      ensures nr == 0 <==> Full(old(V()).inodeMap)
      ensures ok && nr != 0 ==> BitsTaken(old(V()), V(), sb, nr, sect - sb.n1stSect + 1)
      ensures ok && nr == 0 ==> SectorsTaken(old(V()), V(), sb, sect - sb.n1stSect + 1)
      ensures ok ==> SameFiles(dev.data[..], old(dev.data[..]), sb)
    {
      hide SameFiles, Paint, VolAt, FirstFit, Full, Consistent, Range;
      ghost var d, v := dev.data[..], V();
      VolIs(d, sb);
      ZeroTaken(v, sb);
      nr := AllocImapBit(dev, sb);
      FitsBehindZero(v.inodeMap, NR_RECORDS, 1, nr);
      ghost var d1 := dev.data[..];
      FilesSame(d, sb);
      if nr != 0 {
        PaintImap(d, sb, nr, true);
        ImapFiles(d, sb, nr, true);
      }
      VolIs(d1, sb);
      ok, sect := AllocSmapBit(dev, sb, NR_DEFAULT_FILE_SECTS);
      if ok {
        FitsBehindZero(v.sectMap, MapBits(sb), NR_DEFAULT_FILE_SECTS, sect - sb.n1stSect + 1);
        PaintSmap(d1, sb, sect - sb.n1stSect + 1, NR_DEFAULT_FILE_SECTS, true);
        SmapFiles(d1, sb, sect - sb.n1stSect + 1, NR_DEFAULT_FILE_SECTS, true);
        FilesTrans(d, d1, dev.data[..], sb);
      }
    }

    /** `new_inode` (fs/open.c:350-368) for a number that no entry has; None when the table is full. */
    method NewInode(nr: nat, sect: word) returns (p: Option<nat>)
      requires Objects() && Inv(T()) && 1 <= nr < NR_RECORDS && nr in T().live
      requires CachedFrom(inodes[..], nr, 0) == NR_INODE
      modifies this`held, inodes, dev.data, dev.fsbuf
      ensures Objects() && (p.None? <==> FreeFrom(old(inodes[..]), 0) == NR_INODE)
      ensures p.Some? ==> p.value == FreeFrom(old(inodes[..]), 0) && Inv(T())
      ensures p.Some? ==> var x := Inode(I_REGULAR, 0, sect, NR_DEFAULT_FILE_SECTS);
        T() == TakeEntry(old(T()), p.value, x, nr) && V() == old(V()).(recs := old(V()).recs[nr - 1 := x])
      ensures p.Some? ==> SameFiles(dev.data[..], old(dev.data[..]), sb)
    {
      hide SameFiles, RecordWritten, VolAt, CachedFrom, FreeFrom, Inv;
      ghost var t := T();
      RecsAre(dev.data[..], sb);
      var q, panic := GetInode(nr);
      if panic {
        return None;
      }
      AcquireKeeps(t, nr);
      ghost var t1 := T();
      ghost var d := dev.data[..];
      UpdateInode(q.value, Inode(I_REGULAR, 0, sect, NR_DEFAULT_FILE_SECTS));
      RecordFiles(d, dev.data[..], sb, inodes[q.value].num, Inode(I_REGULAR, 0, sect, NR_DEFAULT_FILE_SECTS));
      SyncKeeps(t1, q.value, Inode(I_REGULAR, 0, sect, NR_DEFAULT_FILE_SECTS));
      inodes[q.value] := inodes[q.value].(cnt := 1);
      assert T().inodes == TakeEntry(t, q.value, Inode(I_REGULAR, 0, sect, NR_DEFAULT_FILE_SECTS), nr).inodes;
      p := q;
    }

    /** Bits, record and entry of a new file (fs/open.c:158-164). None is a stop. */
    method AllocInode() returns (p: Option<nat>, ghost nr: nat, ghost first: int)
      requires Valid() && Consistent(V(), sb)
      modifies this`held, inodes, dev.data, dev.fsbuf
      ensures p.Some? ==> Valid() && InodeAllocated(old(V()), V(), old(T()), T(), sb, nr, first, p.value)
      ensures p.Some? ==> SameFiles(dev.data[..], old(dev.data[..]), sb)
      ensures p.None? <==> !CanAllocate(old(V()), sb) || FreeFrom(old(inodes[..]), 0) == NR_INODE
    {
      hide SameFiles, VolAt, FirstFit, Full, CachedFrom, FreeFrom, Consistent, Range, Inv;
      ghost var v, t, d := V(), T(), dev.data[..];
      first := 0;
      RecsAre(dev.data[..], sb);
      var ok, inodeNr, sect := AllocBits();
      nr := inodeNr;
      if !ok || inodeNr == 0 {
        return None, nr, first;  // for number 0, `new_inode` goes through a null pointer
      }
      first := sect - sb.n1stSect + 1;
      RecsAre(dev.data[..], sb);
      TakenTables(t, v, V(), sb, nr, first);
      NotCached(t, nr);
      assert T() == t.(live := t.live + {nr});
      ghost var d1 := dev.data[..];
      p := NewInode(inodeNr, sect);
      if p.Some? {
        FilesTrans(d, d1, dev.data[..], sb);
        FreeIsFree(t.inodes, p.value);
        NotRoot(t, sb, p.value);
      }
    }

    /** The slot of a new entry, on disk (fs/open.c:383-423). */
    method EnterName(entries: nat, nr: word, name: seq<byte>) returns (grown: bool)
      requires Objects() && |name| <= MAX_FILENAME_LEN && Roomy(V()) && entries == Entries(V())
      modifies dev.data, dev.fsbuf
      ensures Nameable(old(V()), name) && (grown <==> Place(old(V()).slots, entries) == entries)
      ensures V() == old(V()).(slots := Enter(old(V()).slots, Place(old(V()).slots, entries), nr, name))
      ensures SameFiles(dev.data[..], old(dev.data[..]), sb)
    {
      hide SameFiles, VolAt, FindNr, Enter, Splice, EntryBytes, Slots;
      ghost var d := dev.data[..];
      SlotsAre(d, sb);
      SlotWidth(d, sb);
      ghost var at := Place(V().slots, entries);
      grown := NewDirEntry(dev, sb.n1stSect, entries, nr, name);
      EnterSlots(d, sb.n1stSect, at, nr, name);
      SpliceDir(d, sb, SlotOff(sb.n1stSect, at), EntryBytes(at, nr, name));
      EntryInside(sb.n1stSect, at, nr, name);
      FrontFiles(d, sb, SlotOff(sb.n1stSect, at), EntryBytes(at, nr, name));
    }

    /** `new_dir_entry` in the pinned root directory (fs/open.c:380-426). */
    method AddEntry(nr: word, name: seq<byte>)
      requires Valid() && |name| <= MAX_FILENAME_LEN && Roomy(V())
      modifies inodes, dev.data, dev.fsbuf
      ensures Valid() && Nameable(old(V()), name) && V() == Named(old(V()), nr, name)
      ensures T() == Sync(old(T()), ROOT_ENTRY, RootWith(old(T()), Grown(old(V()).slots, Entries(old(V())))))
      ensures SameFiles(dev.data[..], old(dev.data[..]), sb)
    {
      hide SameFiles, RecordWritten, VolAt, Inv, FindNr, Enter;
      ghost var v, t, d := V(), T(), dev.data[..];
      RootRecord(t, sb);
      var root := inodes[ROOT_ENTRY].rec;
      var grown := EnterName(root.size / DIR_ENTRY_SIZE, nr, name);
      assert T() == t;
      var size := if grown then root.size + DIR_ENTRY_SIZE else root.size;
      ghost var d1 := dev.data[..];
      UpdateInode(ROOT_ENTRY, root.(size := size));
      RecordFiles(d1, dev.data[..], sb, inodes[ROOT_ENTRY].num, root.(size := size));
      FilesTrans(d, d1, dev.data[..], sb);
      SyncKeeps(t, ROOT_ENTRY, root.(size := size));
    }

    /** `create_file` after the path has been stripped (fs/open.c:151-170). None is a stop. */
    method CreateFile(name: seq<byte>) returns (p: Option<nat>, ghost nr: nat, ghost first: int)
      requires Valid() && Consistent(V(), sb) && 0 < |name| <= MAX_FILENAME_LEN && Roomy(V())
      modifies this`held, inodes, dev.data, dev.fsbuf
      ensures p.Some? ==> Valid() && FileCreated(old(V()), V(), old(T()), T(), sb, nr, first, p.value, name)
      ensures p.None? <==> !CanAllocate(old(V()), sb) || FreeFrom(old(inodes[..]), 0) == NR_INODE
      ensures p.Some? ==> SameFiles(dev.data[..], old(dev.data[..]), sb)
    {
      hide SameFiles, VolAt, Inv, CanAllocate, FreeFrom, Consistent, Named, Allocated;
      ghost var v, t, d := V(), T(), dev.data[..];
      RecsAre(dev.data[..], sb);
      p, nr, first := AllocInode();
      if p.Some? {
        AllocatedRoom(v, sb, nr, first);
        ghost var w, u, d1 := V(), T(), dev.data[..];
        AddEntry(inodes[p.value].num, name);
        FilesTrans(d, d1, dev.data[..], sb);
      }
    }

    /** The assignments that tie a slot, a descriptor and an i-node together (fs/open.c:99-106). */
    method ConnectSlot(s: nat, f: nat, p: nat, flags: nat)
      requires Objects() && s < NR_FILP && filp[s] == None && f < NR_FILE_DESC && descs[f].inode.None?
      requires p < NR_INODE && held[p] > 0
      modifies this`held, descs, filp
      ensures Objects() && T() == Connect(old(T()), s, f, p, flags) && V() == old(V())
      ensures old(Valid() && held[p] > if p == ROOT_ENTRY then 1 else 0) ==> Valid()
    {
      hide VolAt, Inv;
      if Inv(T()) { ConnectKeeps(T(), s, f, p, flags); }
      filp[s] := Some(f);
      descs[f] := Desc(flags, 0, 1, Some(p));
      held := held[p := held[p] - 1];
    }

    /** `do_open` without O_CREAT, from the search on (fs/open.c:75, 87-106). */
    method OpenFile(path: seq<byte>, s: nat, f: nat, flags: nat) returns (r: Option<nat>, panic: bool)
      requires Valid() && Charted(V(), path) && s < NR_FILP && filp[s] == None && f < NR_FILE_DESC
        && descs[f].inode.None?
      modifies this`held, inodes, descs, filp, dev.fsbuf
      ensures Objects() && V() == old(V()) && |V().recs| == NR_RECORDS && (Leads(V(), path) ==> Valid())
      ensures PathInode(V(), path) == 0 || Stripped(path).None? <==> r == None && !panic
      ensures PathInode(V(), path) != 0 && Stripped(path).Some? ==>
        (panic <==> EntryFor(old(inodes[..]), PathInode(V(), path)) == NR_INODE)
      ensures !panic && r.Some? ==> OpenedOld(old(V()), old(T()), T(), path, s, f, r.value, flags)
      ensures panic || r.None? ==> T() == old(T())
    {
      hide VolAt, Inv, CachedFrom, FreeFrom, Stripped, PathInode;
      ghost var t := T();
      RecsAre(dev.data[..], sb);
      var nr := SearchPath(path);
      var name := StripPath(path);
      if name.None? {
        return None, false;
      }
      assert Inv(t);
      r, panic := GetInode(nr);
      if panic || r.None? {
        return;
      }
      AcquirePinned(t, sb, nr);
      if Leads(V(), path) {
        LeadsLive(V(), path);
        AcquireKeeps(t, nr);
      }
      ConnectSlot(s, f, r.value, flags);
    }

    /** `do_open` (fs/open.c:41-135). */
    method DoOpen(pid: nat, path: seq<byte>, flags: nat) returns (r: Reply)
      requires Valid() && Consistent(V(), sb) && Charted(V(), path) && Roomy(V()) && pid < NR_SLOTS
      modifies this`held, inodes, descs, filp, dev.data, dev.fsbuf
      ensures r == Value(-1) <==> OpenRefused(old(V()), old(T()), pid, path, flags)
      ensures r == Stop <==> OpenStops(old(V()), old(T()), sb, pid, path, flags)
      ensures r == Value(-1) ==> Valid() && T() == old(T()) && V() == old(V())
      ensures r.Value? && r.n != -1 ==> Objects() && Opened(old(V()), V(), old(T()), T(), sb, pid, path, flags, r.n)
      ensures r.Value? && r.n != -1 && Leads(old(V()), path) ==> Valid()
      ensures r.Value? ==> SameFiles(dev.data[..], old(dev.data[..]), sb)
    {
      hide SameFiles, VolAt, Inv, Consistent, Stripped, PathInode, FreeFd, FreeDesc, FileCreated, Connect, EntryFor;
      hide Leads, Acquire, CanAllocate, FreeFrom;
      ghost var v, t := V(), T();
      FilesSame(dev.data[..], sb);
      RecsAre(dev.data[..], sb);
      if |path| >= MAX_PATH {
        return Stop;
      }
      var fd := FindFd(pid);
      if fd == NR_FILES {
        return Stop;
      }
      var f := FindDesc();
      if f == NR_FILE_DESC {
        return Stop;
      }
      assert Row(filp[..], pid)[fd] == filp[pid * NR_FILES + fd];
      var p;
      if flags % 2 == O_CREAT {
        var nr := SearchPath(path);
        if nr != 0 {
          return Value(-1);
        }
        var name := StripPath(path);
        if name.None? {
          return Value(-1);
        }
        NotRootPath(v, path);
        ghost var ino, first;
        p, ino, first := CreateFile(name.value);
        if p.None? {
          return Stop;
        }
        ghost var m := T();
        NewEntryHeld(v, V(), t, m, sb, ino, first, p.value, name.value);
        ConnectSlot(pid * NR_FILES + fd, f, p.value, flags);
        ConnectFrame(m, pid * NR_FILES + fd, f, p.value, flags);
        assert CreatedAndConnected(v, V(), t, T(), sb, path, pid * NR_FILES + fd, f, flags, ino, first, p.value,
          name.value, m);
      } else {
        if flags / O_RDWR % 2 == 0 {
          return Stop;
        }
        var panic;
        p, panic := OpenFile(path, pid * NR_FILES + fd, f, flags);
        if panic {
          return Stop;
        }
        if p.None? {
          return Value(-1);
        }
        OpenedEntry(v, t, T(), path, pid * NR_FILES + fd, f, p.value, flags);
      }
      r := if Openable(inodes[p.value].num, inodes[p.value].rec) then Value(fd) else Stop;
    }

    /** One used slot is given up: `do_close`, and one turn of `fs_exit` (fs/open.c:182-191,
        fs/main.c:394-401). */
    method DropSlot(s: nat)
      requires Valid() && s < NR_FILP && filp[s].Some?
      modifies inodes, descs, filp
      ensures Valid() && filp[s] == None && Detached(old(T()), T(), s) && V() == old(V())
    {
      hide VolAt, Inv;
      ghost var t := T();
      DetachKeeps(t, s);
      SlotShape(t, s);
      var f := filp[s].value;
      var p := descs[f].inode.value;
      inodes[p] := inodes[p].(cnt := inodes[p].cnt - 1);
      descs[f] := descs[f].(cnt := descs[f].cnt - 1);
      if descs[f].cnt == 0 {
        descs[f] := descs[f].(inode := None);
      }
      filp[s] := None;
      assert T().descs == Detach(t, s).descs && T().inodes == Detach(t, s).inodes && T().filp == Detach(t, s).filp;
    }

    /** `do_close`. */
    method DoClose(pid: nat, fd: nat) returns (r: Reply)
      requires Valid() && pid < NR_SLOTS && fd < NR_FILES && filp[pid * NR_FILES + fd].Some?
      modifies inodes, descs, filp
      ensures r == Value(0) && Valid() && Detached(old(T()), T(), pid * NR_FILES + fd) && V() == old(V())
    {
      DropSlot(pid * NR_FILES + fd);
      r := Value(0);
    }

    /** `fs_exit` (fs/main.c:389-404): the process has no slot left, every other slot is as it was, and the
        counts are exact again. */
    method FsExit(pid: nat) returns (r: Reply)
      requires Valid() && pid < NR_SLOTS
      modifies inodes, descs, filp
      ensures r == Value(0) && Valid() && V() == old(V()) && held == old(held)
      ensures forall s :: 0 <= s < NR_FILP ==> filp[s] == (if InRow(pid, s) then None else old(filp[s]))
      ensures Did(old(T()), T(), Runs.Exit(pid))
    {
      hide VolAt, Inv, Runs.DetachFrom;
      ghost var t0 := T();
      TableShape(t0);
      var i := 0;
      while i < NR_FILES
        invariant 0 <= i <= NR_FILES && Valid() && V() == old(V()) && held == old(held)
        invariant forall s :: 0 <= s < NR_FILP ==>
          filp[s] == (if pid * NR_FILES <= s < pid * NR_FILES + i then None else old(filp[s]))
        invariant Runs.DetachFrom(T(), pid, i) == Runs.DetachFrom(t0, pid, 0)
      {
        Runs.DetachOne(T(), pid, i);
        if filp[pid * NR_FILES + i] != None {
          DropSlot(pid * NR_FILES + i);
        }
        i := i + 1;
      }
      DetachedAll(T(), pid);
      r := Value(0);
    }

    /** `fs_fork` (fs/main.c:375-387), called when `do_fork` has copied the slots of the parent to the
        child: until then the counts leave the child's row out, afterwards they are exact. */
    method FsFork(pid: nat, ghost parent: nat) returns (r: Reply)
      requires Objects() && pid < NR_SLOTS && Inv(WithoutRow(T(), pid, 0)) && RootPinned(T(), sb)
      requires parent < NR_SLOTS && parent != pid && Row(filp[..], parent) == Row(filp[..], pid)
      requires forall i :: 0 <= i < NR_FILES && Row(filp[..], pid)[i].Some? ==>
        Opens(descs[..], Row(filp[..], pid)[i].value)
      modifies inodes, descs
      ensures r == Value(0) && Valid() && V() == old(V())
      ensures SameInodes(old(T()), T()) && SameDescs(old(T()), T())
      ensures Did(WithoutRow(old(T()), pid, 0), T(), Runs.Fork(parent, pid))
    {
      hide VolAt, Inv, WithoutRow, Runs.AttachFrom;
      ghost var row, t0 := Row(filp[..], pid), WithoutRow(T(), pid, 0);
      var i := 0;
      RowShape(T(), pid);
      RowLong(T(), pid, 0);
      ForkEnabled(T(), parent, pid);
      while i < NR_FILES
        invariant 0 <= i <= NR_FILES && Inv(WithoutRow(T(), pid, i)) && RootPinned(T(), sb) && V() == old(V())
        invariant SameInodes(old(T()), T()) && SameDescs(old(T()), T())
        invariant forall k :: 0 <= k < NR_FILES && row[k].Some? ==> Opens(descs[..], row[k].value)
        invariant RowLength(T(), pid, i)
          && Runs.AttachFrom(WithoutRow(T(), pid, i), parent, pid, i) == Runs.AttachFrom(t0, parent, pid, 0)
      {
        assert row[i] == filp[pid * NR_FILES + i];
        RowStep(T(), parent, pid, i);
        if filp[pid * NR_FILES + i].Some? {
          ghost var t := T();
          var f := filp[pid * NR_FILES + i].value;
          assert Opens(descs[..], row[i].value);
          RowNext(t, pid, i, f);
          var p := descs[f].inode.value;
          descs[f] := descs[f].(cnt := descs[f].cnt + 1);
          inodes[p] := inodes[p].(cnt := inodes[p].cnt + 1);
          RowDone(t, T(), pid, i, f);
        } else {
          RowSkip(T(), pid, i);
        }
        i := i + 1;
      }
      RowAll(T(), pid);
      AttachedAll(T(), parent, pid);
      r := Value(0);
    }

    /** `do_stat` (fs/misc.c:16-63). What it reports is what the disk says, and it leaves every count as
        it was. */
    method DoStat(path: seq<byte>) returns (r: Reply, st: Stat)
      requires Valid() && Charted(V(), path)
      modifies this`held, inodes, dev.fsbuf
      ensures Objects() && V() == old(V())
      ensures r == if |path| >= MAX_PATH then Stop else if LeadsNowhere(V(), path) then Value(-1)
                   else if EntryFor(old(inodes[..]), PathInode(V(), path)) == NR_INODE then Stop else Value(0)
      ensures r == Value(-1) ==> Valid() && T() == old(T())
      ensures r == Value(0) ==> Valid() && Did(old(T()), T(), Runs.Stat(PathInode(V(), path))) && Told(V(), path, st)
      ensures r == Value(0) ==> var x := V().recs[PathInode(V(), path) - 1];
        && st.ino == PathInode(V(), path) && st.mode == x.mode && st.size == x.size
        && st.rdev == if x.mode / 0x1000 % 0x10 == 2 || x.mode / 0x1000 % 0x10 == 6 then x.startSect else 0
    {
      hide VolAt, Inv, RootPinned, Stripped, PathInode, EntryFor, Acquire, Release, IsSpecial, Did, Told;
      ghost var t := T();
      RecsAre(dev.data[..], sb);
      st := Stat(0, 0, 0, 0);
      if |path| >= MAX_PATH {
        return Stop, st;
      }
      var nr := SearchPath(path);
      if nr == 0 {
        return Value(-1), st;
      }
      var p, panic := GetInode(nr);
      if panic {
        return Stop, st;
      }
      Looked(t, sb, nr);
      var x := inodes[p.value];
      st := Stat(x.num, x.rec.mode, if IsSpecial(x.rec.mode) then x.rec.startSect else 0, x.rec.size);
      PutInode(p.value);
      assert Told(V(), path, st) by { TellsRecord(V(), path, x, st); }
      ToldFields(V(), path, st);
      r := Value(0);
    }

    /** The bits of a file that goes away (fs/link.c:49-97): an assertion fails exactly when the number is not in
        use. */
    method FreeBits(nr: nat, x: Inode) returns (ok: bool)
      requires Objects() && Consistent(V(), sb) && 1 <= nr <= NR_RECORDS
      requires InUse(V(), nr) ==> x == Rec(V(), nr) && x.nrSects > 0
      modifies dev.data, dev.fsbuf
      ensures Objects() && (ok <==> InUse(old(V()), nr))
      ensures ok ==> V() == old(V()).(inodeMap := old(V()).inodeMap - {nr},
                               sectMap := old(V()).sectMap - Range(FirstBit(sb, x), x.nrSects))
      ensures ok ==> SameFiles(dev.data[..], old(dev.data[..]), sb)
    {
      hide SameFiles, Paint, VolAt, Consistent, Range, Bits;
      ghost var d, v := dev.data[..], V();
      VolIs(d, sb);
      ok := FreeImapBit(dev, sb, nr);
      RecsAre(d, sb);
      if !ok {
        return;
      }
      assert InUse(v, nr) by { BitBelow(d, nr); }
      UnlinkAsserts(v, sb, nr);
      PaintImap(d, sb, nr, false);
      ghost var d1 := dev.data[..];
      VolIs(d1, sb);
      ok := FreeExtent(dev, sb, x.startSect, x.nrSects);
      PaintSmap(d1, sb, FirstBit(sb, x), x.nrSects, false);
      ImapFiles(d, sb, nr, false);
      SmapFiles(d1, sb, FirstBit(sb, x), x.nrSects, false);
      FilesTrans(d, d1, dev.data[..], sb);
    }

    /** The maps, the record and the reference of a file that goes away (fs/link.c:49-108). */
    method WipeInode(p: nat, nr: nat) returns (ok: bool)
      requires Objects() && Consistent(V(), sb) && 1 <= nr <= NR_RECORDS
      requires InUse(V(), nr) ==> Inv(T()) && nr != ROOT_INODE && Rec(V(), nr).nrSects > 0
      requires p < NR_INODE && inodes[p].num == nr && inodes[p].rec == T().recs[nr - 1] && inodes[p].cnt == 1
        && held[p] > 0
      modifies this`held, inodes, dev.data, dev.fsbuf
      ensures Objects() && (ok <==> InUse(old(V()), nr))
      ensures ok ==> V() == Freed(old(V()), sb, nr) && Inv(T()) && T() == Wiped(old(T()), p, nr)
      ensures ok ==> SameFiles(dev.data[..], old(dev.data[..]), sb)
    {
      hide SameFiles, RecordWritten, VolAt, Inv, Consistent, Range;
      ghost var v, t, d := V(), T(), dev.data[..];
      ok := FreeBits(nr, inodes[p].rec);
      if !ok {
        return;
      }
      LiveLess(v.inodeMap, nr);
      assert T() == t.(live := t.live - {nr});
      ghost var d1 := dev.data[..];
      UpdateInode(p, NO_RECORD);
      RecordFiles(d1, dev.data[..], sb, nr, NO_RECORD);
      FilesTrans(d, d1, dev.data[..], sb);
      PutInode(p);
      WipeKeeps(t, p, nr);
      assert T().inodes == Wiped(t, p, nr).inodes && T().held == Wiped(t, p, nr).held;
      assert T().recs == Wiped(t, p, nr).recs && T().live == Wiped(t, p, nr).live;
    }

    /** The slot that names `nr` goes (fs/link.c:113-151). */
    method EraseName(entries: nat, nr: word) returns (ok: bool, last: bool, entries': nat)
      requires Objects() && DirShape(V()) && entries == Entries(V())
      modifies dev.data, dev.fsbuf
      ensures Objects() && (ok <==> FindNr(old(V()).slots, nr) < entries)
      ensures ok ==> var at := FindNr(old(V()).slots, nr);
        && V() == old(V()).(slots := old(V()).slots[at := EMPTY])
        && (last <==> at + 1 == entries) && entries' == Shrunk(old(V()).slots, entries, at)
      ensures ok ==> SameFiles(dev.data[..], old(dev.data[..]), sb)
    {
      hide SameFiles, VolAt, FindNr, Used, Splice, Zeros, Slots;
      ghost var d := dev.data[..];
      SlotsAre(d, sb);
      ghost var at := FindNr(V().slots, nr);
      ok, last, entries' := RemoveEntry(dev, sb.n1stSect, entries, nr);
      if ok {
        WipeSlots(d, sb.n1stSect, at);
        SpliceDir(d, sb, SlotOff(sb.n1stSect, at), Zeros(DIR_ENTRY_SIZE));
        FrontFiles(d, sb, SlotOff(sb.n1stSect, at), Zeros(DIR_ENTRY_SIZE));
      }
    }

    /** And with the last slot the directory shrinks (fs/link.c:152-155). */
    method RemoveName(nr: word) returns (ok: bool)
      requires Valid() && DirShape(V())
      modifies inodes, dev.data, dev.fsbuf
      ensures ok <==> HasEntry(old(V()), nr)
      ensures ok ==> Valid() && V() == Unnamed(old(V()), nr) && T() == Resized(old(T()), old(V()), nr)
      ensures ok ==> SameFiles(dev.data[..], old(dev.data[..]), sb)
    {
      hide SameFiles, RecordWritten, VolAt, Inv, FindNr, Used;
      ghost var v, t, d := V(), T(), dev.data[..];
      RootRecord(t, sb);
      var root := inodes[ROOT_ENTRY].rec;
      var last, entries;
      ok, last, entries := EraseName(root.size / DIR_ENTRY_SIZE, nr);
      if ok {
        assert T() == t;
        if last {
          UsedFew(v.slots[..FindNr(v.slots, nr)]);
          SyncKeeps(t, ROOT_ENTRY, root.(size := entries * DIR_ENTRY_SIZE));
          ghost var d1 := dev.data[..];
          UpdateInode(ROOT_ENTRY, root.(size := entries * DIR_ENTRY_SIZE));
          RecordFiles(d1, dev.data[..], sb, inodes[ROOT_ENTRY].num, root.(size := entries * DIR_ENTRY_SIZE));
          FilesTrans(d, d1, dev.data[..], sb);
        }
      }
    }

    /** `do_unlink` (fs/link.c:14-158). A refusal keeps the reference it took; an accepted request stops
        when the number is not in use or no entry of the directory has it, and only then. */
    method DoUnlink(path: seq<byte>) returns (r: Reply)
      requires Valid() && Consistent(V(), sb) && Charted(V(), path)
      modifies this`held, inodes, dev.data, dev.fsbuf
      ensures |path| < MAX_PATH && (Text(path) == [SLASH] || LeadsNowhere(old(V()), path)) ==>
        r == Value(-1) && Valid() && T() == old(T()) && V() == old(V())
      ensures UnlinkRefused(old(V()), old(T()), path) ==>
        r == Value(-1) && Objects() && T() == Acquire(old(T()), PathInode(old(V()), path)) && V() == old(V())
          && (Leads(V(), path) ==> Valid())
      ensures UnlinkGranted(old(V()), old(T()), path) ==>
        r == if InUse(old(V()), PathInode(old(V()), path)) && HasEntry(old(V()), PathInode(old(V()), path))
             then Value(0) else Stop
      ensures |path| >= MAX_PATH ==> r == Stop
      ensures Text(path) != [SLASH] && !LeadsNowhere(old(V()), path) && !Reached(old(V()), old(T()), path) ==> r == Stop
      ensures r == Value(0) ==> Valid() && Consistent(V(), sb) && Unlinked(old(V()), V(), old(T()), T(), sb, path)
      ensures r.Value? ==> SameFiles(dev.data[..], old(dev.data[..]), sb)
    {
      hide SameFiles, VolAt, Inv, Consistent, PathInode, CachedFrom, FreeFrom, Range, Freed, Unnamed, Stripped, FindNr;
      ghost var v, t, d := V(), T(), dev.data[..];
      FilesSame(d, sb);
      if |path| >= MAX_PATH {
        return Stop;
      }
      if Text(path) == [SLASH] {
        return Value(-1);
      }
      RecsAre(dev.data[..], sb);
      var nr := SearchPath(path);
      if nr == 0 {
        return Value(-1);
      }
      var p, panic := GetInode(nr);
      if panic {
        return Stop;
      }
      AcquireKeeps(t, nr);
      AcquirePinned(t, sb, nr);
      assert RootPinned(T(), sb);
      if Leads(v, path) { LeadsLive(v, path); }
      if inodes[p.value].rec.mode != I_REGULAR {
        return Value(-1);
      }
      if inodes[p.value].cnt > 1 {
        return Value(-1);
      }
      if InUse(v, nr) {
        InUseLive(v, nr);
        RegularFile(v, sb, nr);
      }
      ghost var u := T();
      var ok := WipeInode(p.value, nr);
      if !ok {
        return Stop;
      }
      FreedShape(v, sb, nr);
      ghost var d1 := dev.data[..];
      ok := RemoveName(nr);
      if !ok {
        return Stop;
      }
      FilesTrans(d, d1, dev.data[..], sb);
      UnlinkKeeps(v, sb, nr);
      UnlinkIsStep(v, t, T(), sb, path);
      r := Value(0);
    }

    /** The user's buffer is none of the server's own arrays. */
    predicate Apart(buf: array<byte>) {
      buf as object !in {dev.data as object, dev.fsbuf as object, inodes as object, descs as object, filp as object}
    }

    /** The bytes of a request, and the position after it (fs/read_write.c:47-85). */
    method MoveBytes(s: nat, write: bool, len: nat, buf: array<byte>) returns (moved: nat)
      requires Objects() && Apart(buf) && len <= buf.Length && Transferable(T(), dev, s, len, write)
      modifies descs, dev.data, dev.fsbuf, buf
      ensures Objects() && moved <= len && inodes[..] == old(inodes[..]) && held == old(held)
      ensures descs[..] == AtPosition(old(T()), s, moved)
      ensures Carried(old(T()), old(dev.data[..]), dev.data[..], old(buf[..]), buf[..], s, len, write, moved)
    {
      hide VolAt, Moved, Window, Count;
      var f := filp[s].value;
      var pos := descs[f].pos;
      var x := inodes[descs[f].inode.value].rec;
      moved := Transfer(dev, x, pos, len, write, buf);
      descs[f] := descs[f].(pos := pos + moved);
    }

    /** A file whose position is behind its size has grown, in memory and on disk (fs/read_write.c:86-89). */
    method SyncSize(f: nat, p: nat)
      requires Objects() && Inv(T()) && f < NR_FILE_DESC && 0 <= descs[f].pos < WORD && p < NR_INODE
      requires inodes[p].cnt > 0
      modifies inodes, dev.data, dev.fsbuf
      ensures Objects() && Inv(T()) && V() == old(V()).(recs := T().recs)
      ensures descs[f].pos <= old(inodes[p].rec.size) ==> T() == old(T()) && dev.data[..] == old(dev.data[..])
      ensures descs[f].pos > old(inodes[p].rec.size) ==>
        && 1 <= inodes[p].num <= NR_RECORDS && T() == Sync(old(T()), p, old(inodes[p].rec).(size := descs[f].pos))
        && RecordWritten(old(dev.data[..]), dev.data[..], sb, inodes[p].num, inodes[p].rec)
      ensures Agree(dev.data[..], old(dev.data[..]), sb.n1stSect * SECTOR_SIZE, dev.data.Length)
    {
      hide VolAt, Inv, Agree, RecordWritten;
      ghost var t := T();
      RecsAre(dev.data[..], sb);
      CachedNumber(t, p);
      AgreeSame(dev.data[..], sb.n1stSect * SECTOR_SIZE);
      var x := inodes[p].rec;
      if descs[f].pos > x.size {
        SyncKeeps(t, p, x.(size := descs[f].pos));
        UpdateInode(p, x.(size := descs[f].pos));
      }
    }

    /** `do_rdwt` on a regular file, or reading the directory (fs/read_write.c:14-92). The character-device
        branch is not part of this model. */
    method DoRdwt(pid: nat, fd: nat, write: bool, len: nat, buf: array<byte>) returns (r: Reply)
      requires Valid() && Apart(buf) && len <= buf.Length
      requires pid < NR_SLOTS && fd < NR_FILES && Transferable(T(), dev, pid * NR_FILES + fd, len, write)
      requires Tame(T(), sb, pid * NR_FILES + fd, len, write)
      modifies inodes, descs, dev.data, dev.fsbuf, buf
      ensures Valid() && V() == old(V()).(recs := T().recs)
      ensures r == Value(-1) <==> !Writable(old(T()), pid * NR_FILES + fd)
      ensures r == Value(-1) ==> T() == old(T()) && dev.data[..] == old(dev.data[..]) && buf[..] == old(buf[..])
      ensures r != Value(-1) ==> Served(old(T()), T(), old(dev.data[..]), dev.data[..], old(buf[..]), buf[..], sb,
                                        pid * NR_FILES + fd, len, write, r)
    {
      hide VolAt, Inv, Carried, Agree, RecordWritten, ServedBy, Runs.Advance, Runs.Movable, RootPinned, Count;
      var s := pid * NR_FILES + fd;
      ghost var t, d0, u0 := T(), dev.data[..], buf[..];
      SlotShape(t, s);
      RecsAre(d0, sb);
      var f := filp[s].value;
      if descs[f].mode / O_RDWR % 2 == 0 {
        return Value(-1);
      }
      var p := descs[f].inode.value;
      var x := inodes[p].rec;
      var moved := MoveBytes(s, write, len, buf);
      ghost var m := dev.data[..];
      CarriedVol(t, d0, m, u0, buf[..], sb, s, len, write, moved);
      PositionKeeps(t, f, PosOf(t, s) + moved);
      CachedNumber(t, p);
      if descs[f].pos > x.size { GrowsBehind(t, sb, s, len, write, moved, d0, m, u0, buf[..]); }
      ghost var t1 := T();
      assert t1 == AtPos(t, f, PosOf(t, s) + moved);
      SyncSize(f, p);
      StillRooted(t, T(), sb, s, moved);
      ServedNow(t, T(), d0, m, dev.data[..], u0, buf[..], sb, s, len, write, moved);
      r := Value(moved);
    }
  }

  lemma RecsAre(d: seq<byte>, sb: SuperBlock)
    requires OnDevice(sb, |d|)
    ensures VolAt(d, sb).recs == Records(d, sb) && |VolAt(d, sb).recs| == NR_RECORDS
      && |VolAt(d, sb).slots| == DIR_SLOTS
  {
  }

  /** The scan of `get_inode` has found the entry in use. */
  lemma FoundAt(inodes: seq<CachedInode>, num: nat, k: nat)
    requires k < |inodes| && inodes[k].cnt > 0 && inodes[k].num == num
    requires forall j :: 0 <= j < k ==> inodes[j].cnt == 0 || inodes[j].num != num
    ensures CachedFrom(inodes, num, 0) == k == EntryFor(inodes, num)
  {
    hide CachedFrom, FreeFrom;
  }

  /** There is none, and `q` is the first entry not in use. */
  lemma NotFound(inodes: seq<CachedInode>, num: nat, q: nat)
    requires q <= |inodes| && forall j :: 0 <= j < |inodes| ==> inodes[j].cnt == 0 || inodes[j].num != num
    requires (q < |inodes| ==> inodes[q].cnt == 0) && forall j :: 0 <= j < q ==> inodes[j].cnt > 0
    ensures CachedFrom(inodes, num, 0) == |inodes| && EntryFor(inodes, num) == q
  {
    hide CachedFrom, FreeFrom;
  }

  lemma FirstEntry(inodes: seq<CachedInode>)
    requires |inodes| == NR_INODE && forall p :: 0 <= p < NR_INODE ==> inodes[p].cnt == 0
    ensures EntryFor(inodes, ROOT_INODE) == ROOT_ENTRY
    ensures CachedFrom(inodes, ROOT_INODE, 0) == NR_INODE
  {
  }

  /** Taking the root directory pins it. */
  lemma RootTaken(t: Tables, sb: SuperBlock)
    requires Inv(t) && ROOT_INODE in t.live && ROOT_INODE <= |t.recs|
    requires forall p :: 0 <= p < NR_INODE ==> t.inodes[p].cnt == 0 == t.held[p]
    requires var x := t.recs[ROOT_INODE - 1];
      x.startSect == sb.n1stSect && x.size % DIR_ENTRY_SIZE == 0 && x.size / DIR_ENTRY_SIZE < DIR_SLOTS
    ensures EntryFor(t.inodes, ROOT_INODE) == ROOT_ENTRY < |t.inodes| == |t.held|
    ensures Inv(Acquire(t, ROOT_INODE)) && RootPinned(Acquire(t, ROOT_INODE), sb)
    ensures Acquire(t, ROOT_INODE).filp == t.filp && Acquire(t, ROOT_INODE).held == t.held[ROOT_ENTRY := 1]
  {
    hide Inv, CachedFrom, FreeFrom;
    TableShape(t);
    FirstEntry(t.inodes);
    AcquireKeeps(t, ROOT_INODE);
  }

  lemma NothingOpen(t: Tables)
    requires |t.inodes| == NR_INODE == |t.held| && |t.descs| == NR_FILE_DESC && |t.filp| == NR_FILP
    requires forall p :: 0 <= p < NR_INODE ==> t.inodes[p].cnt == 0 == t.held[p]
    requires forall f :: 0 <= f < NR_FILE_DESC ==> t.descs[f].cnt == 0 && t.descs[f].inode.None?
    requires forall s :: 0 <= s < NR_FILP ==> t.filp[s] == None
    ensures Inv(t)
  {
    assert forall o :: o in multiset(t.filp) ==> o == None;
    assert forall o :: o in multiset(Targets(t.filp, t.descs)) ==> o == None;
  }

  lemma RootUsable(v: Vol, sb: SuperBlock)
    requires Consistent(v, sb)
    ensures |v.recs| == NR_RECORDS && ROOT_INODE in v.inodeMap && Entries(v) < DIR_SLOTS
    ensures Rec(v, ROOT_INODE).startSect == sb.n1stSect && Rec(v, ROOT_INODE).size % DIR_ENTRY_SIZE == 0
  {
  }

  lemma SlotsAre(d: seq<byte>, sb: SuperBlock)
    requires OnDevice(sb, |d|)
    ensures VolAt(d, sb).slots == Slots(d, sb.n1stSect)
  {
  }

  /** `filp` of process `pid`. */
  function Row(filp: seq<Option<nat>>, pid: nat): (r: seq<Option<nat>>)
    requires |filp| == NR_FILP && pid < NR_SLOTS
    ensures |r| == NR_FILES
  {
    filp[pid * NR_FILES..pid * NR_FILES + NR_FILES]
  }

  function FdFrom(row: seq<Option<nat>>, i: nat): (fd: nat)
    requires i <= |row|
    ensures i <= fd <= |row| && (fd < |row| ==> row[fd] == None)
    ensures forall j :: i <= j < fd ==> row[j].Some?
    decreases |row| - i
  {
    if i == |row| || row[i] == None then i else FdFrom(row, i + 1)
  }

  function FreeFd(row: seq<Option<nat>>): (fd: nat)
    ensures fd <= |row| && (fd < |row| ==> row[fd] == None)
    ensures forall j :: 0 <= j < fd ==> row[j].Some?
  {
    FdFrom(row, 0)
  }

  function DescFrom(descs: seq<Desc>, i: nat): (f: nat)
    requires i <= |descs|
    ensures i <= f <= |descs| && (f < |descs| ==> descs[f].inode.None?)
    ensures forall j :: i <= j < f ==> descs[j].inode.Some?
    decreases |descs| - i
  {
    if i == |descs| || descs[i].inode.None? then i else DescFrom(descs, i + 1)
  }

  function FreeDesc(descs: seq<Desc>): (f: nat)
    ensures f <= |descs| && (f < |descs| ==> descs[f].inode.None?)
    ensures forall j :: 0 <= j < f ==> descs[j].inode.Some?
  {
    DescFrom(descs, 0)
  }

  /** What the two allocators leave behind. */
  ghost predicate BitsTaken(v: Vol, w: Vol, sb: SuperBlock, nr: nat, first: int) {
    && 1 < nr < NR_RECORDS && 1 <= first && first + NR_DEFAULT_FILE_SECTS <= MapBits(sb)
    && FirstFit(v.inodeMap, NR_RECORDS, 1, nr) && FirstFit(v.sectMap, MapBits(sb), NR_DEFAULT_FILE_SECTS, first)
    && w == v.(inodeMap := v.inodeMap + {nr}, sectMap := v.sectMap + Range(first, NR_DEFAULT_FILE_SECTS))
  }

  /** The run of sectors is taken, and nothing else. */
  ghost predicate SectorsTaken(v: Vol, w: Vol, sb: SuperBlock, first: int) {
    FirstFit(v.sectMap, MapBits(sb), NR_DEFAULT_FILE_SECTS, first)
    && w == v.(sectMap := v.sectMap + Range(first, NR_DEFAULT_FILE_SECTS))
  }

  lemma FitsBehindZero(bits: set<int>, total: nat, n: nat, first: int)
    requires 0 in bits && n > 0
    ensures FirstFit(bits, total, n, first) ==> 1 <= first && first + n <= total && first !in bits
  {
    var tried := first in bits;
  }

  lemma ZeroTaken(v: Vol, sb: SuperBlock)
    requires Consistent(v, sb)
    ensures 0 in v.inodeMap && 0 in v.sectMap && ROOT_INODE in v.inodeMap
  {
  }

  lemma VolIs(d: seq<byte>, sb: SuperBlock)
    requires OnDevice(sb, |d|)
    ensures VolAt(d, sb).inodeMap == Bits(d, IMAP_BASE, SECTOR_SIZE)
    ensures VolAt(d, sb).sectMap == Bits(d, sb.SmapBase(), sb.SmapBytes()) && MapBits(sb) == sb.SmapBytes() * 8
  {
  }

  ghost predicate CanAllocate(v: Vol, sb: SuperBlock) {
    !Full(v.inodeMap) && exists first :: FirstFit(v.sectMap, MapBits(sb), NR_DEFAULT_FILE_SECTS, first)
  }

  /** Number `nr`, the sectors from bit `first` on and entry `p` are what a new file gets. */
  ghost predicate Fits(v: Vol, t: Tables, sb: SuperBlock, nr: nat, first: int, p: nat) {
    && Geometry(sb) && sb.n1stSect > 0 && |v.recs| == NR_RECORDS == |t.recs| && 1 < nr < NR_RECORDS
         && 1 <= first <= MapBits(sb)
    && FirstFit(v.inodeMap, NR_RECORDS, 1, nr) && FirstFit(v.sectMap, MapBits(sb), NR_DEFAULT_FILE_SECTS, first)
    && p < |t.inodes| == |t.held| && p == FreeFrom(t.inodes, 0) && |t.inodes| == NR_INODE
  }

  /** The i-node exists, on disk and in entry `p`, and the caller holds the one reference to it. */
  ghost predicate InodeAllocated(v: Vol, w: Vol, t: Tables, u: Tables, sb: SuperBlock, nr: nat, first: int, p: nat) {
    Fits(v, t, sb, nr, first, p) && w == Allocated(v, sb, nr, first) && u == WithFile(t, sb, nr, first, p)
  }

  ghost function WithFile(t: Tables, sb: SuperBlock, nr: nat, first: int, p: nat): (u: Tables)
    requires Geometry(sb) && sb.n1stSect > 0 && p < |t.inodes| == |t.held| && 1 <= nr <= |t.recs|
      && 0 <= first <= MapBits(sb)
    ensures |u.inodes| == |t.inodes| && |u.recs| == |t.recs|
  {
    TakeEntry(t.(live := t.live + {nr}), p, NewRecord(sb, first), nr)
  }

  lemma FreeIsFree(inodes: seq<CachedInode>, p: nat)
    requires p == FreeFrom(inodes, 0) < |inodes|
    ensures inodes[p].cnt == 0
  {
  }

  lemma LiveMore(t: Tables, nr: nat)
    requires Inv(t)
    ensures Inv(t.(live := t.live + {nr}))
  {
    hide Targets;
    assert InodeCounts(t.(live := t.live + {nr}));
  }

  /** Taking the bits puts the number among those in use. */
  lemma TakenTables(t: Tables, v: Vol, w: Vol, sb: SuperBlock, nr: nat, first: int)
    requires BitsTaken(v, w, sb, nr, first) && Inv(t) && t.live == v.inodeMap - {0} && t.recs == v.recs
    ensures Inv(t.(live := t.live + {nr})) && w.inodeMap - {0} == t.live + {nr} && w.recs == t.recs && nr !in t.live
  {
    hide Inv;
    LiveMore(t, nr);
    assert (v.inodeMap + {nr}) - {0} == (v.inodeMap - {0}) + {nr};
    var tried := nr in v.inodeMap;
  }

  lemma NotCached(t: Tables, nr: nat)
    requires Inv(t) && nr !in t.live
    ensures CachedFrom(t.inodes, nr, 0) == |t.inodes|
  {
    hide CachedFrom;
  }

  /** The pinned entry is in use. */
  lemma NotRoot(t: Tables, sb: SuperBlock, p: nat)
    requires Inv(t) && RootPinned(t, sb) && p < NR_INODE && t.inodes[p].cnt == 0
    ensures p != ROOT_ENTRY
  {
  }

  /** The directory has room for one more slot in its extent. */
  predicate Roomy(v: Vol) { |v.recs| == NR_RECORDS && |v.slots| == DIR_SLOTS && Entries(v) + 1 < DIR_SLOTS }

  predicate Nameable(v: Vol, name: seq<byte>) {
    && Roomy(v) && |name| <= MAX_FILENAME_LEN
    && |v.slots[Place(v.slots, Entries(v))].name| == MAX_FILENAME_LEN
  }

  lemma SlotWidth(d: seq<byte>, sb: SuperBlock)
    requires OnDevice(sb, |d|)
    ensures forall m :: 0 <= m < DIR_SLOTS ==> |Slots(d, sb.n1stSect)[m].name| == MAX_FILENAME_LEN
  {
    hide WordAt;
  }

  /** The record of the root directory with another number of entries. */
  function RootWith(t: Tables, entries: nat): Inode
    requires |t.inodes| == NR_INODE && entries <= DIR_SLOTS
  {
    t.inodes[ROOT_ENTRY].rec.(size := entries * DIR_ENTRY_SIZE)
  }

  /** A file has been created: on disk, in entry `p`, and in the directory. */
  ghost predicate FileCreated(v: Vol, w: Vol, t: Tables, u: Tables, sb: SuperBlock, nr: nat, first: int, p: nat,
                              name: seq<byte>) {
    && Fits(v, t, sb, nr, first, p) && Nameable(Allocated(v, sb, nr, first), name) && Nameable(v, name)
    && w == Named(Allocated(v, sb, nr, first), nr, name)
    && WithFile(t, sb, nr, first, p).inodes[ROOT_ENTRY].num == ROOT_INODE
    && u == Sync(WithFile(t, sb, nr, first, p), ROOT_ENTRY,
                 RootWith(WithFile(t, sb, nr, first, p), Grown(v.slots, Entries(v))))
  }

  lemma AllocatedRoom(v: Vol, sb: SuperBlock, nr: nat, first: int)
    requires Geometry(sb) && 0 <= first <= MapBits(sb) && sb.n1stSect > 0 && 1 < nr < NR_RECORDS && Roomy(v)
    ensures var w := Allocated(v, sb, nr, first); Roomy(w) && Entries(w) == Entries(v) && w.slots == v.slots
  {
  }

  /** Taking a reference leaves the root directory where it is. */
  lemma AcquirePinned(t: Tables, sb: SuperBlock, num: nat)
    requires Inv(t) && RootPinned(t, sb) && 1 <= num <= |t.recs| && EntryFor(t.inodes, num) < |t.inodes|
    ensures RootPinned(Acquire(t, num), sb)
    ensures Acquire(t, num).held[EntryFor(t.inodes, num)] > if EntryFor(t.inodes, num) == ROOT_ENTRY then 1 else 0
  {
    hide CachedFrom, FreeFrom;
    RootRecord(t, sb);
  }

  lemma BitBelow(d: seq<byte>, nr: nat)
    requires IMAP_BASE + SECTOR_SIZE <= |d| && nr in Bits(d, IMAP_BASE, SECTOR_SIZE)
    ensures nr < NR_RECORDS
  {
  }

  /** A new entry, the NUL behind a long name included, stays inside the directory's extent. */
  lemma EntryInside(blk0: nat, at: nat, nr: word, name: seq<byte>)
    requires at < DIR_SLOTS && |name| <= MAX_FILENAME_LEN
    ensures SlotOff(blk0, at) + |EntryBytes(at, nr, name)| <= (blk0 + NR_DEFAULT_FILE_SECTS) * SECTOR_SIZE
  {
    hide EntryBytes;
  }

  lemma InUseLive(v: Vol, nr: nat)
    requires InUse(v, nr)
    ensures nr in v.inodeMap - {0} && 1 <= nr < NR_RECORDS
  {
  }

  /** An existing file has been opened: entry `p` has its i-node, and slot `s` and descriptor `f` lead to it. */
  ghost predicate OpenedOld(v: Vol, t: Tables, u: Tables, path: seq<byte>, s: nat, f: nat, p: nat, flags: nat) {
    && DirShape(v) && PathInode(v, path) != 0 && PathInode(v, path) <= |t.recs|
    && |t.inodes| == NR_INODE == |t.held| && |t.filp| == NR_FILP && |t.descs| == NR_FILE_DESC && s < NR_FILP
         && f < NR_FILE_DESC
    && p == EntryFor(t.inodes, PathInode(v, path)) < NR_INODE
    && u == Connect(Acquire(t, PathInode(v, path)), s, f, p, flags)
  }

  predicate DirShape(v: Vol) { |v.recs| == NR_RECORDS && |v.slots| == DIR_SLOTS && Entries(v) < DIR_SLOTS }

  /** `i_mode & I_TYPE_MASK`. */
  function TypeOf(mode: word): nat { mode / 0x1000 % 0x10 * 0x1000 }

  /** `do_open` returns -1: with O_CREAT when the name exists or the path is bad, else when it leads nowhere. */
  predicate OpenRefused(v: Vol, t: Tables, pid: nat, path: seq<byte>, flags: nat) {
    && DirShape(v) && |t.filp| == NR_FILP && pid < NR_SLOTS && |path| < MAX_PATH
    && FreeFd(Row(t.filp, pid)) < NR_FILES && FreeDesc(t.descs) < NR_FILE_DESC
    && (if flags % 2 == O_CREAT then PathInode(v, path) != 0 || Stripped(path).None?
        else flags / O_RDWR % 2 == 1 && (PathInode(v, path) == 0 || Stripped(path).None?))
  }

  /** What `do_open` asserts of the i-node it has opened (fs/open.c:108-132). */
  predicate Openable(num: nat, x: Inode) {
    if TypeOf(x.mode) == I_CHAR_SPECIAL then x.startSect / 0x100 % 0x100 == 4
    else if TypeOf(x.mode) == I_DIRECTORY then num == ROOT_INODE else x.mode == I_REGULAR
  }

  /** `do_open` stops: the name is too long, a table is full, the flags are wrong, a new file does not fit,
      or the i-node is of no kind it knows. */
  ghost predicate OpenStops(v: Vol, t: Tables, sb: SuperBlock, pid: nat, path: seq<byte>, flags: nat)
    requires DirShape(v) && |t.filp| == NR_FILP && pid < NR_SLOTS && |t.inodes| == NR_INODE
  {
    || |path| >= MAX_PATH || FreeFd(Row(t.filp, pid)) == NR_FILES || FreeDesc(t.descs) == NR_FILE_DESC
    || (if flags % 2 == O_CREAT
        then PathInode(v, path) == 0 && Stripped(path).Some?
          && (!CanAllocate(v, sb) || FreeFrom(t.inodes, 0) == NR_INODE)
        else flags / O_RDWR % 2 == 0
             || (PathInode(v, path) != 0 && Stripped(path).Some? && !CanEnter(v, t, PathInode(v, path))))
  }

  ghost predicate CanEnter(v: Vol, t: Tables, nr: nat) {
    1 <= nr <= |v.recs| && EntryFor(t.inodes, nr) < |t.inodes| && Openable(nr, v.recs[nr - 1])
  }

  lemma LeadsLive(v: Vol, path: seq<byte>)
    requires Leads(v, path) && PathInode(v, path) != 0
    ensures PathInode(v, path) in v.inodeMap - {0}
  {
  }

  /** The entry of a file that has been opened. */
  lemma OpenedEntry(v: Vol, t: Tables, u: Tables, path: seq<byte>, s: nat, f: nat, p: nat, flags: nat)
    requires Inv(t) && OpenedOld(v, t, u, path, s, f, p, flags)
    ensures 1 <= PathInode(v, path) <= |t.recs| && p < |u.inodes|
    ensures u.inodes[p].num == PathInode(v, path) && u.inodes[p].rec == t.recs[PathInode(v, path) - 1]
  {
    hide Inv, CachedFrom, FreeFrom, PathInode;
    AcquireKeeps(t, PathInode(v, path));
  }

  lemma ConnectFrame(t: Tables, s: nat, f: nat, p: nat, flags: int)
    requires s < |t.filp| && f < |t.descs| && p < |t.held| && t.held[p] > 0
    ensures Connect(t, s, f, p, flags).inodes == t.inodes
  {
  }

  ghost predicate CreatedAndConnected(v: Vol, w: Vol, t: Tables, u: Tables, sb: SuperBlock, path: seq<byte>,
                                      s: nat, f: nat, flags: nat,
                                      nr: nat, first: int, p: nat, name: seq<byte>, m: Tables)
  {
    && Stripped(path) == Some(name) && FileCreated(v, w, t, m, sb, nr, first, p, name)
    && s < |m.filp| && f < |m.descs| && p < |m.held| && m.held[p] > 0 && u == Connect(m, s, f, p, flags)
  }

  /** A new file has been made and opened. */
  ghost predicate OpenedNew(v: Vol, w: Vol, t: Tables, u: Tables, sb: SuperBlock, path: seq<byte>, s: nat,
                            f: nat, flags: nat) {
    exists nr, first, p, name, m :: CreatedAndConnected(v, w, t, u, sb, path, s, f, flags, nr, first, p, name, m)
  }

  /** `fd` is open on what the path leads to. */
  ghost predicate Opened(v: Vol, w: Vol, t: Tables, u: Tables, sb: SuperBlock, pid: nat, path: seq<byte>,
                         flags: nat, fd: int) {
    && DirShape(v) && |t.filp| == NR_FILP && |t.descs| == NR_FILE_DESC && pid < NR_SLOTS
    && fd == FreeFd(Row(t.filp, pid)) < NR_FILES && FreeDesc(t.descs) < NR_FILE_DESC
    && var s, f := pid * NR_FILES + fd, FreeDesc(t.descs);
      if flags % 2 == O_CREAT then PathInode(v, path) == 0 && OpenedNew(v, w, t, u, sb, path, s, f, flags)
      else w == v && exists p :: OpenedOld(v, t, u, path, s, f, p, flags)
  }

  /** A path that leads nowhere has a name. */
  lemma NotRootPath(v: Vol, path: seq<byte>)
    requires DirShape(v) && PathInode(v, path) == 0
    ensures Stripped(path).Some? ==> 0 < |Stripped(path).value| <= MAX_FILENAME_LEN
  {
    hide Search;
  }

  lemma NewEntryHeld(v: Vol, w: Vol, t: Tables, m: Tables, sb: SuperBlock, nr: nat, first: int, p: nat, name: seq<byte>)
    requires FileCreated(v, w, t, m, sb, nr, first, p, name) && Inv(t) && RootPinned(t, sb)
    ensures p != ROOT_ENTRY && p < NR_INODE == |m.held| && m.held[p] > 0 && m.filp == t.filp && m.descs == t.descs
    ensures |m.inodes| == NR_INODE && m.inodes[p].rec.mode == I_REGULAR && Openable(m.inodes[p].num, m.inodes[p].rec)
  {
    hide Named, Allocated, FirstFit, Nameable;
    FreeIsFree(t.inodes, p);
    NotRoot(t, sb, p);
  }

  /** Slot `s` belongs to process `pid`. */
  predicate InRow(pid: nat, s: int) { pid * NR_FILES <= s < pid * NR_FILES + NR_FILES }

  /** The same i-nodes in memory, apart from their counts, and the same records on disk. */
  ghost predicate SameInodes(t: Tables, u: Tables) {
    && |u.inodes| == |t.inodes| && u.recs == t.recs && u.live == t.live && u.held == t.held
    && forall p :: 0 <= p < |t.inodes| ==> u.inodes[p].rec == t.inodes[p].rec && u.inodes[p].num == t.inodes[p].num
  }

  /** The same slots and descriptors, apart from their counts. */
  ghost predicate SameDescs(t: Tables, u: Tables) {
    && u.filp == t.filp && |u.descs| == |t.descs|
    && forall f :: 0 <= f < |t.descs| ==> u.descs[f] == t.descs[f].(cnt := u.descs[f].cnt)
  }

  /** Slot `s` has been given up. */
  ghost predicate Detached(t: Tables, u: Tables, s: nat) {
    && s < |t.filp| && t.filp[s].Some? && t.filp[s].value < |t.descs|
    && (var d := t.descs[t.filp[s].value];
        d.cnt > 0 && d.inode.Some? && d.inode.value < |t.inodes| && t.inodes[d.inode.value].cnt > 0)
    && u == Detach(t, s)
  }

  lemma SlotShape(t: Tables, s: nat)
    requires Inv(t) && s < NR_FILP && t.filp[s].Some?
    ensures Shape(t) && t.filp[s].value < NR_FILE_DESC && t.descs[t.filp[s].value].inode.Some?
    ensures t.descs[t.filp[s].value].inode.value < NR_INODE && t.inodes[t.descs[t.filp[s].value].inode.value].cnt > 0
  {
    SlotCounts(t, s);
  }

  // ---------------------------------------------------------------- fork, slot by slot

  /** The tables without the slots of `pid` from the `i`-th on. */
  function WithoutRow(t: Tables, pid: nat, i: nat): Tables {
    t.(filp := seq(|t.filp|, s requires 0 <= s < |t.filp| =>
      if pid * NR_FILES + i <= s < pid * NR_FILES + NR_FILES then None else t.filp[s]))
  }

  predicate Opens(descs: seq<Desc>, f: nat) {
    f < |descs| == NR_FILE_DESC && descs[f].inode.Some? && descs[f].inode.value < NR_INODE
  }

  lemma RowShape(t: Tables, pid: nat)
    requires Inv(WithoutRow(t, pid, 0)) && pid < NR_SLOTS
    ensures |t.inodes| == NR_INODE && |t.descs| == NR_FILE_DESC && |t.filp| == NR_FILP
  {
  }

  /** Counting the `i`-th slot brings it back. */
  lemma RowNext(t: Tables, pid: nat, i: nat, f: nat)
    requires Inv(WithoutRow(t, pid, i)) && pid < NR_SLOTS && i < NR_FILES && |t.filp| == NR_FILP
    requires t.filp[pid * NR_FILES + i] == Some(f) && Opens(t.descs, f)
    ensures Inv(Attach(WithoutRow(t, pid, i), pid * NR_FILES + i, f))
    ensures |t.inodes| == NR_INODE
    ensures Attach(WithoutRow(t, pid, i), pid * NR_FILES + i, f).filp == WithoutRow(t, pid, i + 1).filp
  {
    hide Inv;
    AttachKeeps(WithoutRow(t, pid, i), pid * NR_FILES + i, f);
    RowShapeAt(t, pid, i);
  }

  lemma RowShapeAt(t: Tables, pid: nat, i: nat)
    requires Inv(WithoutRow(t, pid, i))
    ensures |t.inodes| == NR_INODE
  {
  }

  lemma RowDone(t: Tables, u: Tables, pid: nat, i: nat, f: nat)
    requires pid < NR_SLOTS && i < NR_FILES && |t.filp| == NR_FILP && Opens(t.descs, f) && |t.inodes| == NR_INODE
    requires Attach(WithoutRow(t, pid, i), pid * NR_FILES + i, f).filp == WithoutRow(t, pid, i + 1).filp
    requires Inv(Attach(WithoutRow(t, pid, i), pid * NR_FILES + i, f))
    requires u == Attach(t, pid * NR_FILES + i, f).(filp := t.filp)
    ensures Inv(WithoutRow(u, pid, i + 1))
      && WithoutRow(u, pid, i + 1) == Attach(WithoutRow(t, pid, i), pid * NR_FILES + i, f)
  {
    hide Inv;
    assert WithoutRow(u, pid, i + 1) == Attach(WithoutRow(t, pid, i), pid * NR_FILES + i, f);
  }

  lemma RowSkip(t: Tables, pid: nat, i: nat)
    requires Inv(WithoutRow(t, pid, i)) && pid < NR_SLOTS && i < NR_FILES && |t.filp| == NR_FILP
    requires t.filp[pid * NR_FILES + i] == None
    ensures Inv(WithoutRow(t, pid, i + 1)) && WithoutRow(t, pid, i + 1) == WithoutRow(t, pid, i)
  {
    hide Inv;
    assert WithoutRow(t, pid, i + 1).filp == WithoutRow(t, pid, i).filp;
  }

  lemma RowAll(t: Tables, pid: nat)
    requires Inv(WithoutRow(t, pid, NR_FILES))
    ensures Inv(t) && WithoutRow(t, pid, NR_FILES) == t
  {
    hide Inv;
    assert WithoutRow(t, pid, NR_FILES).filp == t.filp;
  }

  predicate RowLength(t: Tables, pid: nat, i: nat) { |t.filp| == |WithoutRow(t, pid, i).filp| == NR_FILP }

  /** The parent's slot, with part of the child's row left out. */
  lemma RowStep(t: Tables, parent: nat, pid: nat, i: nat)
    requires |t.filp| == NR_FILP && parent < NR_SLOTS && pid < NR_SLOTS && parent != pid && i < NR_FILES
    requires Row(t.filp, parent) == Row(t.filp, pid)
    requires t.filp[pid * NR_FILES + i].Some? ==>
      Opens(t.descs, t.filp[pid * NR_FILES + i].value) && |t.inodes| == NR_INODE
    ensures RowLength(t, pid, i) && RowLength(t, pid, i + 1)
    ensures var w, o := WithoutRow(t, pid, i), t.filp[pid * NR_FILES + i];
      Runs.AttachFrom(w, parent, pid, i) ==
        if o.Some? then Runs.AttachFrom(Attach(w, pid * NR_FILES + i, o.value), parent, pid, i + 1)
        else Runs.AttachFrom(w, parent, pid, i + 1)
  {
    hide Runs.AttachFrom;
    var w := WithoutRow(t, pid, i);
    assert Row(t.filp, parent)[i] == t.filp[parent * NR_FILES + i] && Row(t.filp, pid)[i] == t.filp[pid * NR_FILES + i];
    assert w.filp[parent * NR_FILES + i] == t.filp[parent * NR_FILES + i];
    Runs.AttachOne(w, parent, pid, i);
  }

  lemma AttachedAll(t: Tables, parent: nat, pid: nat)
    requires |t.filp| == NR_FILP && parent < NR_SLOTS && pid < NR_SLOTS
    ensures Runs.AttachFrom(t, parent, pid, NR_FILES) == t
  {
  }

  lemma DetachedAll(t: Tables, pid: nat)
    requires |t.filp| == NR_FILP && pid < NR_SLOTS
    ensures Runs.DetachFrom(t, pid, NR_FILES) == t
  {
  }

  lemma TableShape(t: Tables)
    requires Inv(t)
    ensures |t.inodes| == NR_INODE == |t.held| && |t.descs| == NR_FILE_DESC && |t.filp| == NR_FILP
  {
  }

  lemma RowLong(t: Tables, pid: nat, i: nat)
    requires |t.filp| == NR_FILP
    ensures RowLength(t, pid, i)
  {
  }

  lemma ForkEnabled(t: Tables, parent: nat, pid: nat)
    requires Inv(WithoutRow(t, pid, 0)) && parent < NR_SLOTS && pid < NR_SLOTS && parent != pid && |t.filp| == NR_FILP
    ensures Runs.Enabled(WithoutRow(t, pid, 0), Runs.Fork(parent, pid))
  {
    TableShape(WithoutRow(t, pid, 0));
  }

  /** The tables went through one step of module FileTableRuns. */
  ghost predicate Did(t: Tables, u: Tables, r: Runs.Request) { Runs.Enabled(t, r) && u == Runs.Step(t, r) }

  lemma FilpShape(t: Tables)
    requires Inv(t)
    ensures |t.filp| == NR_FILP
  {
  }

  /** What `do_fork` does to the slots (mm/forkexit.c:34) is what `fs_fork` expects: the child had no
      slots, and now has the parent's. */
  lemma ForkReady(t: Tables, parent: nat, child: nat, u: Tables)
    requires Inv(t) && parent < NR_SLOTS && child < NR_SLOTS && parent != child
    requires |t.filp| == NR_FILP && forall s :: 0 <= s < NR_FILP && InRow(child, s) ==> t.filp[s] == None
    requires |u.filp| == NR_FILP && u == t.(filp := u.filp)
    requires forall s :: 0 <= s < NR_FILP && !InRow(child, s) ==> u.filp[s] == t.filp[s]
    requires Row(u.filp, child) == Row(t.filp, parent)
    ensures WithoutRow(u, child, 0) == t
    ensures forall i :: 0 <= i < NR_FILES && Row(u.filp, child)[i].Some? ==> Opens(u.descs, Row(u.filp, child)[i].value)
  {
    hide Inv;
    var w := WithoutRow(u, child, 0).filp;
    forall s | 0 <= s < NR_FILP ensures w[s] == t.filp[s] {
      var there := InRow(child, s);
    }
    assert |t.filp| == NR_FILP && w == t.filp by { FilpShape(t); }
    forall i | 0 <= i < NR_FILES && Row(u.filp, child)[i].Some? ensures Opens(u.descs, Row(u.filp, child)[i].value) {
      assert Row(t.filp, parent)[i] == t.filp[parent * NR_FILES + i];
      SlotShape(t, parent * NR_FILES + i);
    }
  }

  /** `struct stat`: the i-node number, the mode, the device of a special file, the size. */
  datatype Stat = Stat(ino: nat, mode: word, rdev: word, size: word)

  predicate IsSpecial(mode: word) { TypeOf(mode) == 0x6000 || TypeOf(mode) == I_CHAR_SPECIAL }

  predicate LeadsNowhere(v: Vol, path: seq<byte>) { DirShape(v) && PathInode(v, path) == 0 }

  /** The answer of `do_stat` is what the record on disk says. */
  predicate Told(v: Vol, path: seq<byte>, st: Stat) {
    DirShape(v) && 1 <= PathInode(v, path) <= NR_RECORDS && Reports(st, PathInode(v, path), Rec(v, PathInode(v, path)))
  }

  lemma StatIsStep(t: Tables, num: nat, u: Tables)
    requires |t.inodes| == |t.held| == NR_INODE && |t.filp| == NR_FILP && |t.descs| == NR_FILE_DESC
    requires 1 <= num <= |t.recs| && EntryFor(t.inodes, num) < |t.inodes|
    requires Acquire(t, num).inodes[EntryFor(t.inodes, num)].cnt > 0
    requires u == Release(Acquire(t, num), EntryFor(t.inodes, num))
    ensures Did(t, u, Runs.Stat(num))
  {
    hide EntryFor;
  }

  /** Looking at an i-node and putting it back. */
  lemma Looked(t: Tables, sb: SuperBlock, nr: nat)
    requires Inv(t) && RootPinned(t, sb) && 1 <= nr <= |t.recs| && EntryFor(t.inodes, nr) < |t.inodes|
    ensures var u, p := Acquire(t, nr), EntryFor(t.inodes, nr);
      && |u.inodes| == |u.held| == NR_INODE && p < NR_INODE && u.held[p] > 0
      && u.inodes[p].cnt > 0 && u.inodes[p].num == nr && u.inodes[p].rec == t.recs[nr - 1]
      && Inv(Release(u, p)) && RootPinned(Release(u, p), sb) && Did(t, Release(u, p), Runs.Stat(nr))
  {
    hide Inv, CachedFrom, FreeFrom, Runs.Step, Runs.Enabled;
    AcquireKeeps(t, nr);
    LookKeeps(t, nr);
    AcquirePinned(t, sb, nr);
    TableShape(t);
    StatIsStep(t, nr, Release(Acquire(t, nr), EntryFor(t.inodes, nr)));
  }

  lemma TellsRecord(v: Vol, path: seq<byte>, x: CachedInode, st: Stat)
    requires DirShape(v) && 1 <= PathInode(v, path) <= NR_RECORDS
    requires x.num == PathInode(v, path) && x.rec == Rec(v, PathInode(v, path))
    requires st == Stat(x.num, x.rec.mode, if IsSpecial(x.rec.mode) then x.rec.startSect else 0, x.rec.size)
    ensures Told(v, path, st)
  {
    hide PathInode;
  }

  lemma ToldFields(v: Vol, path: seq<byte>, st: Stat)
    requires Told(v, path, st)
    ensures var x := v.recs[PathInode(v, path) - 1];
      && st.ino == PathInode(v, path) && st.mode == x.mode && st.size == x.size
      && st.rdev == if x.mode / 0x1000 % 0x10 == 2 || x.mode / 0x1000 % 0x10 == 6 then x.startSect else 0
  {
    hide PathInode;
  }

  predicate Reports(st: Stat, nr: nat, x: Inode) {
    st == Stat(nr, x.mode, if IsSpecial(x.mode) then x.startSect else 0, x.size)
  }

  /** Only entries that nothing refers to may differ. */
  ghost predicate SameCounts(t: Tables, u: Tables) {
    && u == t.(inodes := u.inodes) && |u.inodes| == |t.inodes|
    && forall p :: 0 <= p < |t.inodes| ==>
         u.inodes[p].cnt == t.inodes[p].cnt && (t.inodes[p].cnt > 0 ==> u.inodes[p] == t.inodes[p])
  }

  lemma GetPut(t: Tables, num: nat)
    requires Inv(t) && 1 <= num <= |t.recs| && EntryFor(t.inodes, num) < |t.inodes|
    requires var u := Acquire(t, num); u.inodes[EntryFor(t.inodes, num)].cnt > 0 && u.held[EntryFor(t.inodes, num)] > 0
    ensures SameCounts(t, Release(Acquire(t, num), EntryFor(t.inodes, num)))
  {
    hide CachedFrom, FreeFrom;
    var p := EntryFor(t.inodes, num);
    assert t.held[p := t.held[p] + 1][p := t.held[p]] == t.held;
  }

  /** Some entry of the directory has the number. */
  predicate HasEntry(v: Vol, nr: word) { DirShape(v) && FindNr(v.slots, nr) < Entries(v) }

  lemma LiveLess(bits: set<int>, nr: nat)
    ensures (bits - {nr}) - {0} == (bits - {0}) - {nr}
  {
  }

  /** The size of the directory after the slot of `nr` has gone, if it changes. */
  function NewSize(v: Vol, nr: word): Option<word>
    requires DirShape(v) && FindNr(v.slots, nr) < DIR_SLOTS
  {
    var at := FindNr(v.slots, nr);
    if at + 1 == Entries(v) then Some(SizeOf(Used(v.slots[..at]))) else None
  }

  function SizeOf(entries: nat): word
    requires entries <= DIR_SLOTS
  {
    entries * DIR_ENTRY_SIZE
  }

  /** The tables after the directory has lost the slot of `nr`. */
  function Resized(t: Tables, v: Vol, nr: word): Tables
    requires |t.inodes| == NR_INODE && t.inodes[ROOT_ENTRY].num == ROOT_INODE && |t.recs| > 0
    requires DirShape(v) && FindNr(v.slots, nr) < DIR_SLOTS
  {
    Runs.Resize(t, NewSize(v, nr))
  }

  lemma UsedFew(s: seq<Slot>)
    ensures Used(s) <= |s|
  {
  }

  /** The file is not regular, or something else has a reference to it (fs/link.c:39-46). */
  ghost predicate InTheWay(v: Vol, t: Tables, path: seq<byte>)
    requires Reached(v, t, path)
  {
    var nr := PathInode(v, path);
    var e := Acquire(t, nr).inodes[EntryFor(t.inodes, nr)];
    e.rec.mode != I_REGULAR || e.cnt > 1
  }

  /** The path leads to an i-node, and there is an entry for it. */
  predicate Reached(v: Vol, t: Tables, path: seq<byte>) {
    && |path| < MAX_PATH && Text(path) != [SLASH] && DirShape(v) && |t.inodes| == NR_INODE == |t.held|
         && |t.recs| == NR_RECORDS
    && 1 <= PathInode(v, path) <= NR_RECORDS && EntryFor(t.inodes, PathInode(v, path)) < NR_INODE
  }

  ghost predicate UnlinkRefused(v: Vol, t: Tables, path: seq<byte>) { Reached(v, t, path) && InTheWay(v, t, path) }

  ghost predicate UnlinkGranted(v: Vol, t: Tables, path: seq<byte>) { Reached(v, t, path) && !InTheWay(v, t, path) }

  /** A file has been removed: from the maps, from the records, from the directory and from memory. */
  ghost predicate Unlinked(v: Vol, w: Vol, t: Tables, u: Tables, sb: SuperBlock, path: seq<byte>) {
    && UnlinkGranted(v, t, path) && HasEntry(v, PathInode(v, path)) && InUse(v, PathInode(v, path))
         && PathInode(v, path) != ROOT_INODE
    && DirShape(Freed(v, sb, PathInode(v, path))) && Freed(v, sb, PathInode(v, path)).slots == v.slots
    && w == Unnamed(Freed(v, sb, PathInode(v, path)), PathInode(v, path))
    && Did(t, u, Runs.Unlink(PathInode(v, path), NewSize(v, PathInode(v, path))))
         && !Runs.Refuses(t, PathInode(v, path))
  }

  lemma UnlinkIsStep(v: Vol, t: Tables, u: Tables, sb: SuperBlock, path: seq<byte>)
    requires Inv(t) && RootPinned(t, sb) && UnlinkGranted(v, t, path) && PathInode(v, path) in t.live
    requires DirShape(v) && FindNr(v.slots, PathInode(v, path)) < DIR_SLOTS && InUse(v, PathInode(v, path))
    requires DirShape(Freed(v, sb, PathInode(v, path))) && Freed(v, sb, PathInode(v, path)).slots == v.slots
    requires Entries(Freed(v, sb, PathInode(v, path))) == Entries(v)
    requires var nr := PathInode(v, path); var p := EntryFor(t.inodes, nr); var a := Acquire(t, nr);
      a.inodes[p].cnt == 1 && a.held[p] > 0 && Wiped(a, p, nr).inodes[ROOT_ENTRY].num == ROOT_INODE
      && u == Resized(Wiped(a, p, nr), Freed(v, sb, nr), nr)
    ensures Did(t, u, Runs.Unlink(PathInode(v, path), NewSize(v, PathInode(v, path))))
      && !Runs.Refuses(t, PathInode(v, path))
  {
    hide Inv, EntryFor, PathInode, Freed, FindNr, Used, Acquire, Wiped;
    TableShape(t);
    RootRecord(t, sb);
  }

  lemma RegularFile(v: Vol, sb: SuperBlock, nr: nat)
    requires Consistent(v, sb) && InUse(v, nr) && Rec(v, nr).mode == I_REGULAR
    ensures nr != ROOT_INODE && Rec(v, nr).nrSects > 0
  {
  }

  lemma FreedShape(v: Vol, sb: SuperBlock, nr: nat)
    requires DirShape(v) && InUse(v, nr) && nr != ROOT_INODE
    ensures var w := Freed(v, sb, nr); DirShape(w) && w.slots == v.slots && Entries(w) == Entries(v)
  {
  }

  /** The i-node behind a used slot. */
  function Behind(t: Tables, s: nat): Inode
    requires s < |t.filp| && t.filp[s].Some? && Opens(t.descs, t.filp[s].value) && |t.inodes| == NR_INODE
  {
    t.inodes[t.descs[t.filp[s].value].inode.value].rec
  }

  /** The slot is used, and the sectors that the request goes through are on the device. */
  ghost predicate Transferable(t: Tables, dev: Disk, s: nat, len: nat, write: bool) {
    && UsedSlot(t, s) && PosOf(t, s) + len < WORD
    && dev.OnDisk(Behind(t, s).startSect + PosOf(t, s) / SECTOR_SIZE,
                  Window(Sectors(Behind(t, s), PosOf(t, s), len, write)))
  }

  predicate UsedSlot(t: Tables, s: nat) {
    && s < |t.filp| && t.filp[s].Some? && Opens(t.descs, t.filp[s].value) && |t.inodes| == NR_INODE
    && 0 <= t.descs[t.filp[s].value].pos
  }

  function PosOf(t: Tables, s: nat): nat
    requires UsedSlot(t, s)
  {
    t.descs[t.filp[s].value].pos
  }

  /** The descriptor was opened with O_RDWR. */
  predicate Writable(t: Tables, s: nat) { UsedSlot(t, s) && t.descs[t.filp[s].value].mode / O_RDWR % 2 == 1 }

  /** A regular file, which lies behind the directory, or a read of the directory within its size. */
  predicate Tame(t: Tables, sb: SuperBlock, s: nat, len: nat, write: bool) {
    UsedSlot(t, s) &&
    (if Behind(t, s).mode == I_REGULAR then sb.n1stSect + NR_DEFAULT_FILE_SECTS <= Behind(t, s).startSect
     else Behind(t, s).mode == I_DIRECTORY && !write && PosOf(t, s) + len <= Behind(t, s).size)
  }

  function AtPosition(t: Tables, s: nat, moved: nat): seq<Desc>
    requires UsedSlot(t, s)
  {
    AtPos(t, t.filp[s].value, PosOf(t, s) + moved).descs
  }

  /** As many bytes as `Count` says have gone between the file and the user. */
  predicate Carried(t: Tables, d: seq<byte>, e: seq<byte>, u: seq<byte>, b: seq<byte>, s: nat, len: nat,
                    write: bool, moved: nat) {
    && UsedSlot(t, s) && moved == Count(Behind(t, s), PosOf(t, s), len, write)
    && Moved(d, u, Behind(t, s).startSect * SECTOR_SIZE + PosOf(t, s), write, moved, e, b)
  }

  /** The position has grown by what was moved, and the size, in memory and on disk, to the position. */
  predicate Advanced(t: Tables, u: Tables, s: nat, moved: nat) {
    UsedSlot(t, s) && Runs.Movable(t, s, moved) && u == Runs.Advance(t, s, moved)
  }

  ghost predicate ServedBy(t: Tables, v: Tables, d: seq<byte>, e: seq<byte>, u: seq<byte>, b: seq<byte>, sb: SuperBlock,
                           s: nat, len: nat, write: bool, moved: nat, m: seq<byte>)
  {
    Advanced(t, v, s, moved) && Carried(t, d, m, u, b, s, len, write, moved)
      && Agree(e, m, sb.n1stSect * SECTOR_SIZE, |e|) && Synced(t, m, e, sb, s, moved)
  }

  /** Behind the transfer only the record of the i-node is written, when the file has grown. */
  predicate Synced(t: Tables, m: seq<byte>, e: seq<byte>, sb: SuperBlock, s: nat, moved: nat) {
    UsedSlot(t, s) &&
    var x := t.inodes[t.descs[t.filp[s].value].inode.value];
    if PosOf(t, s) + moved > x.rec.size
    then PosOf(t, s) + moved < WORD && RecordWritten(m, e, sb, x.num, x.rec.(size := PosOf(t, s) + moved))
    else e == m
  }

  /** The request has been served: the bytes are carried, the position and the size are advanced, and behind
      the i-node array nothing else has changed. */
  ghost predicate Served(t: Tables, v: Tables, d: seq<byte>, e: seq<byte>, u: seq<byte>, b: seq<byte>, sb: SuperBlock,
                         s: nat, len: nat, write: bool, r: Reply)
  {
    exists moved: nat, m :: r == Value(moved) && ServedBy(t, v, d, e, u, b, sb, s, len, write, moved, m)
  }

  /** The tables after a transfer: the position has moved, and a file that has grown is synchronised. */
  predicate MovedOn(t: Tables, u: Tables, s: nat, moved: nat) {
    && UsedSlot(t, s) && |t.recs| == NR_RECORDS && PosOf(t, s) + moved < WORD
    && var f := t.filp[s].value;
    var p, pos := t.descs[f].inode.value, PosOf(t, s) + moved;
    && 1 <= t.inodes[p].num <= NR_RECORDS
    && u == if pos > t.inodes[p].rec.size then Sync(AtPos(t, f, pos), p, t.inodes[p].rec.(size := pos))
            else AtPos(t, f, pos)
  }

  lemma ServedNow(t: Tables, v: Tables, d: seq<byte>, m: seq<byte>, e: seq<byte>, u: seq<byte>, b: seq<byte>,
                  sb: SuperBlock, s: nat, len: nat, write: bool, moved: nat)
    requires MovedOn(t, v, s, moved) && Carried(t, d, m, u, b, s, len, write, moved) && Synced(t, m, e, sb, s, moved)
    requires Agree(e, m, sb.n1stSect * SECTOR_SIZE, |e|)
    ensures Served(t, v, d, e, u, b, sb, s, len, write, Value(moved))
  {
    hide Agree, Carried, RecordWritten;
    assert ServedBy(t, v, d, e, u, b, sb, s, len, write, moved, m);
  }

  lemma StillRooted(t: Tables, u: Tables, sb: SuperBlock, s: nat, moved: nat)
    requires MovedOn(t, u, s, moved) && RootPinned(t, sb)
    requires PosOf(t, s) + moved > Behind(t, s).size ==> t.descs[t.filp[s].value].inode.value != ROOT_ENTRY
    ensures RootPinned(u, sb)
  {
  }

  lemma AgreeSame(d: seq<byte>, lo: int)
    ensures Agree(d, d, lo, |d|)
  {
  }

  /** Carrying bytes does not touch the maps, the i-nodes or the directory. */
  lemma CarriedVol(t: Tables, d: seq<byte>, m: seq<byte>, u: seq<byte>, b: seq<byte>, sb: SuperBlock, s: nat,
                   len: nat, write: bool, moved: nat)
    requires OnDevice(sb, |d|) && Tame(t, sb, s, len, write) && Carried(t, d, m, u, b, s, len, write, moved)
    ensures |m| == |d| && VolAt(m, sb) == VolAt(d, sb)
  {
    hide VolAt, Splice, Count;
    if write && moved > 0 {
      SpliceData(d, sb, Behind(t, s).startSect * SECTOR_SIZE + PosOf(t, s), u[..moved]);
    }
  }

  /** Only a regular file grows, and that is not the pinned directory. */
  lemma GrowsBehind(t: Tables, sb: SuperBlock, s: nat, len: nat, write: bool, moved: nat, d: seq<byte>,
                    m: seq<byte>, u: seq<byte>, b: seq<byte>)
    requires Tame(t, sb, s, len, write) && RootPinned(t, sb) && Carried(t, d, m, u, b, s, len, write, moved)
    requires PosOf(t, s) + moved > Behind(t, s).size
    ensures t.descs[t.filp[s].value].inode.value != ROOT_ENTRY
  {
    CountWithin(Behind(t, s), PosOf(t, s), len, write);
  }

  /** A request within the size (read) or the extent (write) moves all of its bytes; the position grows by
      as many, and the size becomes the larger of the two. */
  lemma Within(t: Tables, v: Tables, d: seq<byte>, e: seq<byte>, u: seq<byte>, b: seq<byte>, sb: SuperBlock,
               s: nat, len: nat, write: bool, moved: nat, m: seq<byte>)
    requires ServedBy(t, v, d, e, u, b, sb, s, len, write, moved, m)
    requires PosOf(t, s) + len <= if write then Behind(t, s).nrSects * SECTOR_SIZE else Behind(t, s).size
    ensures moved == len && UsedSlot(v, s) && PosOf(v, s) == PosOf(t, s) + len
    ensures Behind(v, s) == Behind(t, s).(size := Max(Behind(t, s).size, PosOf(t, s) + len))
    ensures !write ==> v.inodes == t.inodes && v.recs == t.recs
  {
    hide Moved, Agree, Count;
    CountWithin(Behind(t, s), PosOf(t, s), len, write);
  }

  /** A write followed by a read of the same bytes returns them, whatever happens in front of the data
      sectors in between. */
  lemma ReadBack(d: seq<byte>, u: seq<byte>, base: nat, n: nat, m: seq<byte>, e: seq<byte>, lo: int,
                 w: seq<byte>, b: seq<byte>)
    requires n <= |u| && Moved(d, u, base, true, n, m, u) && |e| == |m| && Agree(e, m, lo, |e|) && lo <= base
    requires Moved(e, w, base, false, n, e, b)
    ensures b[..n] == u[..n]
  {
    if n > 0 {
      WriteRead(d, base, u[..n]);
      assert Stretch(m, base, n) == u[..n];
      assert e[base..base + n] == m[base..base + n];
      assert b[..n] == Stretch(e, base, n);
    }
  }

  lemma CachedNumber(t: Tables, p: nat)
    requires Inv(t) && p < NR_INODE && t.inodes[p].cnt > 0
    ensures 1 <= t.inodes[p].num <= |t.recs| && t.inodes[p].rec == t.recs[t.inodes[p].num - 1]
  {
  }

  // ---------------------------------------------------------------- what the requests add up to

  /** A created file leaves the file system consistent if and only if its name is harmless. */
  lemma CreatedConsistent(v: Vol, w: Vol, t: Tables, u: Tables, sb: SuperBlock, nr: nat, first: int, p: nat,
                          name: seq<byte>)
    requires FileCreated(v, w, t, u, sb, nr, first, p, name) && Consistent(v, sb)
    ensures Consistent(w, sb) <==> Harmless(v, name)
  {
    hide Consistent, Named, Allocated, FindNr, Harmless;
    CreateKeepsIff(v, sb, nr, first, name);
  }

  /** A transfer leaves it consistent. */
  lemma TransferConsistent(v: Vol, t: Tables, u: Tables, sb: SuperBlock, s: nat, moved: nat)
    requires Consistent(v, sb) && t.recs == v.recs && Advanced(t, u, s, moved) && Inv(t)
    requires var p := t.descs[t.filp[s].value].inode.value;
      PosOf(t, s) + moved > Behind(t, s).size ==> t.inodes[p].cnt > 0 && t.inodes[p].num != ROOT_INODE
    ensures Consistent(v.(recs := u.recs), sb)
  {
    hide Consistent, Inv;
    var p := t.descs[t.filp[s].value].inode.value;
    RootUsable(v, sb);
    if PosOf(t, s) + moved > Behind(t, s).size {
      CachedNumber(t, p);
      SizedKeeps(v, sb, t.inodes[p].num, PosOf(t, s) + moved);
    } else {
      assert v.(recs := u.recs) == v;
    }
  }

  /** The names of paths that do not mean the directory itself. */
  predicate NamesFile(path: seq<byte>, name: seq<byte>) { Stripped(path) == Some(name) && name != [] }

  lemma NamedSlots(v: Vol, w: Vol, sb: SuperBlock, nr: nat, first: int, name: seq<byte>)
    requires Geometry(sb) && 0 <= first <= MapBits(sb) && sb.n1stSect > 0 && 1 < nr < NR_RECORDS && Nameable(v, name)
    requires Nameable(Allocated(v, sb, nr, first), name) && w == Named(Allocated(v, sb, nr, first), nr, name)
    ensures w.slots == Enter(v.slots, Place(v.slots, Entries(v)), nr, name) && Entries(w) == Grown(v.slots, Entries(v))
    ensures |w.recs| == NR_RECORDS
  {
    hide FindNr, Enter;
    AllocatedRoom(v, sb, nr, first);
  }

  lemma GrantedNumber(v: Vol, t: Tables, path: seq<byte>)
    requires UnlinkGranted(v, t, path)
    ensures 1 <= PathInode(v, path) <= NR_RECORDS
  {
  }

  lemma UnnamedSlots(v: Vol, f: Vol, w: Vol, sb: SuperBlock, nr: word)
    requires DirShape(v) && InUse(v, nr) && nr != ROOT_INODE && f == Freed(v, sb, nr)
      && FindNr(v.slots, nr) < Entries(v)
    requires DirShape(f) && f.slots == v.slots && w == Unnamed(f, nr)
    ensures w.slots == v.slots[FindNr(v.slots, nr) := EMPTY] && DirShape(w)
    ensures Entries(w) == Shrunk(v.slots, Entries(v), FindNr(v.slots, nr))
  {
    hide FindNr, Used;
  }

  /** After one refusal every later unlink of the file is refused, in every state of every run: the reference
      that the refusal kept is never given up. */
  lemma RefusedForGood(run: seq<Tables>, rs: seq<Runs.Request>, i: nat, n: nat, v: Vol, path: seq<byte>)
    requires Runs.Run(run, rs) && i < n <= |rs| && Inv(run[i]) && Runs.RefusedAt(run, rs, i)
    requires Reached(v, run[n], path) && PathInode(v, path) == rs[i].num
    ensures UnlinkRefused(v, run[n], path)
  {
    hide Inv, PathInode, EntryFor, Runs.Step, Runs.Enabled, Runs.Refuses;
    var p := Runs.RefusalHeld(run, rs, i, n);
    RefusedWhileHeld(v, run[n], path, p);
  }

  lemma RefusedWhileHeld(v: Vol, t: Tables, path: seq<byte>, p: nat)
    requires Inv(t) && Reached(v, t, path) && p < NR_INODE && t.inodes[p].num == PathInode(v, path) && t.held[p] > 0
    ensures UnlinkRefused(v, t, path)
  {
    hide CachedFrom, FreeFrom, PathInode;
    assert t.inodes[p].cnt > 0;
    OneEntry(t, p, CachedFrom(t.inodes, t.inodes[p].num, 0));
  }

  lemma OneEntry(t: Tables, p: nat, q: nat)
    requires Inv(t) && p < NR_INODE && t.inodes[p].cnt > 0 && q == CachedFrom(t.inodes, t.inodes[p].num, 0)
    ensures p == q
  {
    hide CachedFrom, Targets;
  }

  // ---------------------------------------------------------------- the requests as steps of a run

  /** Opening an existing file, closing, and a refused unlink are the steps of module FileTableRuns. */
  lemma OpenIsStep(v: Vol, t: Tables, u: Tables, path: seq<byte>, s: nat, f: nat, p: nat, flags: nat)
    requires OpenedOld(v, t, u, path, s, f, p, flags) && PathInode(v, path) in t.live
    requires t.filp[s] == None && t.descs[f].inode.None?
    ensures Runs.Enabled(t, Runs.Open(PathInode(v, path), s, f, flags))
    ensures u == Runs.Step(t, Runs.Open(PathInode(v, path), s, f, flags))
  {
    hide EntryFor, PathInode;
  }

  lemma CloseIsStep(t: Tables, u: Tables, s: nat)
    requires Inv(t) && Detached(t, u, s)
    ensures Runs.Enabled(t, Runs.Close(s)) && u == Runs.Step(t, Runs.Close(s))
  {
    hide DescCounts, InodeCounts, CacheOk;
  }

  lemma RefusalIsStep(v: Vol, t: Tables, sb: SuperBlock, path: seq<byte>)
    requires Inv(t) && RootPinned(t, sb) && UnlinkRefused(v, t, path) && PathInode(v, path) in t.live
    ensures Did(t, Acquire(t, PathInode(v, path)), Runs.Unlink(PathInode(v, path), None))
      && Runs.Refuses(t, PathInode(v, path))
  {
    hide Inv, EntryFor, PathInode;
    TableShape(t);
    RootRecord(t, sb);
  }

  lemma CreateIsStep(v: Vol, w: Vol, t: Tables, u: Tables, sb: SuperBlock, path: seq<byte>, s: nat, f: nat, flags: nat,
                     nr: nat, first: int, p: nat, name: seq<byte>, m: Tables)
    requires Inv(t) && RootPinned(t, sb)
      && CreatedAndConnected(v, w, t, u, sb, path, s, f, flags, nr, first, p, name, m)
    requires s < NR_FILP && t.filp[s] == None && f < NR_FILE_DESC && t.descs[f].inode.None? && nr !in t.live
    ensures Did(t, u, Runs.Create(nr, NewRecord(sb, first), SizeOf(Grown(v.slots, Entries(v))), s, f, flags))
  {
    hide Inv, FreeFrom, FirstFit, Named, Allocated, Nameable, Stripped;
    TableShape(t);
    RootRecord(t, sb);
  }

  lemma MoveIsStep(t: Tables, u: Tables, s: nat, moved: nat)
    requires Inv(t) && Advanced(t, u, s, moved)
    ensures Did(t, u, Runs.Move(s, moved))
  {
    TableShape(t);
  }
}
