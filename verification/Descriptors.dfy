/** What every turn of the file system task does to slots and descriptors, field by field, and what that adds up to
    over whole runs: where a descriptor stands, and how it was opened. */
module Descriptors {
  import opened Const
  import opened BlockDevice
  import opened SectorMap
  import opened Words
  import opened Directory
  import opened DirectoryMap
  import opened FileTable
  import opened Volume
  import opened FileSystem
  import opened FileSystemRuns
  import opened FileBytes
  import Untar

  // ---------------------------------------------------------------- fork and exit, slot by slot

  predicate SameStand(t: Tables, u: Tables, f: int) {
    && |u.descs| == |t.descs|
    && (0 <= f < |t.descs| ==> u.descs[f].pos == t.descs[f].pos && u.descs[f].mode == t.descs[f].mode)
  }

  lemma {:induction false} AttachFromSlots(t: Tables, parent: nat, child: nat, i: nat, s: nat, f: int)
    requires FileTable.Inv(t) && parent < NR_SLOTS && child < NR_SLOTS && parent != child && i <= NR_FILES
    requires |t.filp| == NR_FILP && s < NR_FILP
    requires forall k :: i <= k < NR_FILES ==> t.filp[Runs.At(child, k)] == None
    ensures var u := Runs.AttachFrom(t, parent, child, i);
      && |u.filp| == NR_FILP && SameStand(t, u, f)
      && u.filp[s] == if child * NR_FILES + i <= s < child * NR_FILES + NR_FILES
                      then t.filp[parent * NR_FILES + (s - child * NR_FILES)] else t.filp[s]
    decreases NR_FILES - i
  {
    hide FileTable.Inv;
    if i < NR_FILES {
      var p := Runs.At(parent, i);
      Runs.AttachOne(t, parent, child, i);
      SlotIsUsed(t, p);
      if t.filp[p].Some? {
        Runs.AttachNext(t, child, i, t.filp[p].value);
        AttachFromSlots(Attach(t, Runs.At(child, i), t.filp[p].value), parent, child, i + 1, s, f);
      } else {
        AttachFromSlots(t, parent, child, i + 1, s, f);
        assert t.filp[Runs.At(child, i)] == None == t.filp[p];
      }
    }
  }

  lemma SlotIsUsed(t: Tables, s: nat)
    requires FileTable.Inv(t) && s < |t.filp|
    ensures t.filp[s].Some? <==> Runs.Used(t, s)
  {
    if t.filp[s].Some? { SlotCounts(t, s); }
  }

  lemma {:induction false} DetachFromSlots(t: Tables, pid: nat, i: nat, s: nat, f: int)
    requires FileTable.Inv(t) && pid < NR_SLOTS && i <= NR_FILES && |t.filp| == NR_FILP && s < NR_FILP
    ensures var u := Runs.DetachFrom(t, pid, i);
      && |u.filp| == NR_FILP && SameStand(t, u, f)
      && u.filp[s] == if pid * NR_FILES + i <= s < pid * NR_FILES + NR_FILES then None else t.filp[s]
    decreases NR_FILES - i
  {
    hide FileTable.Inv;
    if i < NR_FILES {
      var k := pid * NR_FILES + i;
      Runs.DetachOne(t, pid, i);
      if t.filp[k].Some? {
        DetachKeeps(t, k);
        DetachFromSlots(Detach(t, k), pid, i + 1, s, f);
      } else {
        DetachFromSlots(t, pid, i + 1, s, f);
      }
    }
  }

  // ---------------------------------------------------------------- one turn

  /** The turn opens descriptor `f`. */
  predicate OpensDesc(c: Change, f: int) { (c.Opening? || c.Creating?) && c.f == f }

  predicate InRowOf(pid: nat, s: int) { pid * 64 <= s < pid * 64 + 64 }

  /** The `filp` slots: an opening fills the one it found free, a close empties its own, a fork copies the parent's to
      the child, an exit empties those of the process, and nothing else changes any. */
  lemma TurnSlots(x: State, c: Change, y: State, sb: SuperBlock, s: nat)
    requires Sound(x, sb) && By(x, c, y, sb) && s < NR_FILP
    ensures |x.filp| == |y.filp| == NR_FILP
    ensures c.Opening? ==> y.filp[s] == if s == c.s then Some(c.f) else x.filp[s]
    ensures c.Creating? ==> y.filp[s] == if s == c.s then Some(c.f) else x.filp[s]
    ensures c.Closing? ==> y.filp[s] == if s == c.s then None else x.filp[s]
    ensures c.Forking? && InRowOf(c.child, s) && c.child < 37 && c.parent < 37 ==>
      y.filp[s] == x.filp[c.parent * 64 + (s - c.child * 64)]
    ensures c.Forking? && !InRowOf(c.child, s) ==> y.filp[s] == x.filp[s]
    ensures c.Exiting? ==> y.filp[s] == if InRowOf(c.pid, s) then None else x.filp[s]
    ensures c.Stating? || c.Refusing? || c.Unlinking? || c.Moving? ==> y.filp[s] == x.filp[s]
  {
    hide FileTable.Inv, Consistent, RootPinned, PathInode, Leads, EntryFor, Stripped, FindNr, Enter, CanEnter, Named,
         Allocated, Freed, Unnamed, Runs.AttachFrom, Runs.DetachFrom;
    TableShape(Tab(x));
    match c
    case Forking(parent, child) => AttachFromSlots(Tab(x), parent, child, 0, s, 0);
    case Exiting(pid) => DetachFromSlots(Tab(x), pid, 0, s, 0);
    case _ =>
  }

  /** Where descriptor `f` stands and how it was opened: an opening puts it to the beginning of the file, with the flags
      asked for, a transfer through it moves it by as many bytes, and nothing else changes either. */
  lemma TurnStand(x: State, c: Change, y: State, sb: SuperBlock, f: nat)
    requires Sound(x, sb) && By(x, c, y, sb) && f < NR_FILE_DESC
    ensures |x.descs| == |y.descs| == NR_FILE_DESC && |x.filp| == NR_FILP
    ensures y.descs[f].mode == if OpensDesc(c, f) then c.flags else x.descs[f].mode
    ensures y.descs[f].pos ==
      if OpensDesc(c, f) then 0
      else if c.Moving? && c.s < NR_FILP && x.filp[c.s] == Some(f) then x.descs[f].pos + c.moved
      else x.descs[f].pos
  {
    hide FileTable.Inv, Consistent, RootPinned, PathInode, Leads, EntryFor, Stripped, FindNr, Enter, CanEnter, Named,
         Allocated, Freed, Unnamed, Runs.AttachFrom, Runs.DetachFrom;
    TableShape(Tab(x));
    match c
    case Forking(parent, child) => AttachFromSlots(Tab(x), parent, child, 0, 0, f);
    case Exiting(pid) => DetachFromSlots(Tab(x), pid, 0, 0, f);
    case _ =>
  }

  /** After an opening or a creation the slot leads to a descriptor of its own, at position 0 and with the flags asked
      for, and that to the file; a new file is regular and empty and has 512 sectors. */
  lemma OpenedFile(x: State, c: Change, y: State, sb: SuperBlock)
    requires Sound(x, sb) && By(x, c, y, sb) && (c.Opening? || c.Creating?)
    ensures c.s < |x.filp| == |y.filp| && c.f < |x.descs| == |y.descs| && c.p < |y.inodes|
    ensures x.filp[c.s] == None && x.descs[c.f].inode == None
    ensures y.filp[c.s] == Some(c.f) && y.descs[c.f] == Desc(c.flags, 0, 1, Some(c.p)) && y.inodes[c.p].cnt > 0
    ensures var num := if c.Creating? then c.nr else PathInode(x.v, c.path);
      && 1 <= num <= |y.v.recs| && y.inodes[c.p].num == num && y.inodes[c.p].rec == y.v.recs[num - 1]
    ensures c.Creating? ==> c.nr !in x.v.inodeMap && c.nr in y.v.inodeMap
    ensures c.Creating? ==> var r := y.inodes[c.p].rec; r.mode == 0x8000 && r.size == 0 && r.nrSects == 512
  {
    hide Consistent, PathInode, Leads, CachedFrom, FreeFrom, Stripped, FindNr, Enter, CanEnter, DescCounts, InodeCounts;
    TableShape(Tab(x));
    match c
    case Opening(path, _, _, _, _) => AcquireKeeps(Tab(x), PathInode(x.v, path));
    case Creating(path, s, f, flags, nr, first, p, name, m) =>
      NumberUnused(x.v, y.v, Tab(x), m, sb, nr, first, p, name);
      NewEntryHeld(x.v, y.v, Tab(x), m, sb, nr, first, p, name);
  }

  // ---------------------------------------------------------------- whole runs

  /** The bytes moved through descriptor `f` by the turns from `i` to `n`. */
  function MovedThrough(run: seq<State>, cs: seq<Change>, f: nat, i: nat, n: nat): nat
    requires i <= n <= |cs| < |run|
  {
    if i == n then 0
    else
      MovedThrough(run, cs, f, i, n - 1) +
      if cs[n - 1].Moving? && cs[n - 1].s < |run[n - 1].filp| && run[n - 1].filp[cs[n - 1].s] == Some(f)
      then cs[n - 1].moved else 0
  }

  /** As long as it is not opened again, a descriptor stands as far behind where it stood as bytes were moved through
      it, by whatever process and slot, and keeps its mode. */
  lemma {:induction false} RunStand(run: seq<State>, cs: seq<Change>, sb: SuperBlock, f: nat, i: nat, n: nat)
    requires FileSystemRuns.Run(run, cs, sb) && i <= n <= |cs| && SoundUpTo(run, sb, n) && f < NR_FILE_DESC
    requires forall k :: i <= k < n ==> !OpensDesc(cs[k], f)
    ensures |run[i].descs| == |run[n].descs| == NR_FILE_DESC
    ensures run[n].descs[f].pos == run[i].descs[f].pos + MovedThrough(run, cs, f, i, n)
    ensures run[n].descs[f].mode == run[i].descs[f].mode
    decreases n - i
  {
    hide By, Sound;
    if i == n {
      assert Sound(run[n], sb);
      DescShape(run[n], sb);
    } else {
      RunStand(run, cs, sb, f, i, n - 1);
      assert By(run[n - 1], cs[n - 1], run[n - 1 + 1], sb) && Sound(run[n - 1], sb);
      TurnStand(run[n - 1], cs[n - 1], run[n], sb, f);
    }
  }

  lemma DescShape(x: State, sb: SuperBlock)
    requires Sound(x, sb)
    ensures |x.descs| == NR_FILE_DESC
  {
    TableShape(Tab(x));
  }

  /** A descriptor stands where its file has been read and written to since it was opened, and has the flags of that
      opening. */
  lemma StandSince(run: seq<State>, cs: seq<Change>, sb: SuperBlock, f: nat, i: nat, n: nat)
    requires FileSystemRuns.Run(run, cs, sb) && i < n <= |cs| && SoundUpTo(run, sb, n) && f < NR_FILE_DESC
    requires OpensDesc(cs[i], f) && forall k :: i < k < n ==> !OpensDesc(cs[k], f)
    ensures |run[n].descs| == NR_FILE_DESC
    ensures run[n].descs[f].pos == MovedThrough(run, cs, f, i + 1, n) && run[n].descs[f].mode == cs[i].flags
  {
    hide By, Sound;
    assert By(run[i], cs[i], run[i + 1], sb) && Sound(run[i], sb);
    TurnStand(run[i], cs[i], run[i + 1], sb, f);
    RunStand(run, cs, sb, f, i + 1, n);
  }

  // ---------------------------------------------------------------- what is read

  /** A read within the size returns the bytes of the file from where the descriptor stands. */
  lemma ReadContent(x: State, c: Change, d: seq<byte>, b: seq<byte>, len: nat)
    requires Returns(x, c, d, b) && InFull(x, c, len, false) && OnDisk(d, Behind(Tab(x), c.s))
    requires PosOf(Tab(x), c.s) + len <= Behind(Tab(x), c.s).size
    requires PosOf(Tab(x), c.s) + len <= Behind(Tab(x), c.s).nrSects * SECTOR_SIZE
    ensures c.moved == len <= |b|
    ensures b[..len] == Content(d, Behind(Tab(x), c.s))[PosOf(Tab(x), c.s)..PosOf(Tab(x), c.s) + len]
  {
    var r, pos := Behind(Tab(x), c.s), PosOf(Tab(x), c.s);
    if len > 0 {
      assert Content(d, r)[pos..pos + len] == d[r.startSect * SECTOR_SIZE + pos..r.startSect * SECTOR_SIZE + pos + len];
    }
  }

  // ---------------------------------------------------------------- what can be opened

  /** Room for one more open file: the path is short enough, and process and system have a descriptor left. */
  predicate RoomToOpen(x: State, pid: nat, path: seq<byte>) {
    && |path| < 128 && pid < NR_SLOTS && |x.filp| == NR_FILP && |x.descs| == NR_FILE_DESC
    && (exists s :: pid * 64 <= s < pid * 64 + 64 && x.filp[s] == None)
    && (exists f :: 0 <= f < 64 && x.descs[f].inode == None)
  }

  lemma RoomFound(x: State, pid: nat, path: seq<byte>)
    requires RoomToOpen(x, pid, path)
    ensures FreeFd(Row(x.filp, pid)) < NR_FILES && FreeDesc(x.descs) < NR_FILE_DESC
  {
    var s :| pid * 64 <= s < pid * 64 + 64 && x.filp[s] == None;
    assert Row(x.filp, pid)[s - pid * 64] == x.filp[s];
  }

  /** When the directory is the map `m`, an opening is answered with -1 exactly when the path has an inner slash, or
      when with O_CREAT it names the directory or a name that is there, and with O_RDWR alone one that is not. */
  lemma RefusedIff(x: State, m: map<seq<byte>, word>, pid: nat, path: seq<byte>, create: bool)
    requires Shows(x.v, m) && RoomToOpen(x, pid, path)
    ensures OpenRefused(x.v, Tab(x), pid, path, if create then 3 else 2) <==>
      match Stripped(path)
      case None => true
      case Some(name) => if create then name == [] || Pad(name) in m else name != [] && Pad(name) !in m
  {
    hide Pad, Stripped, Search, DirOk, Bound;
    RoomFound(x, pid, path);
    var r := Stripped(path);
    if r.Some? && r.value != [] {
      PathShown(x.v, m, path, r.value);
      if Pad(r.value) in m {
        assert Bound(x.v.slots, Pad(r.value), m[Pad(r.value)]);
        BoundNumber(x.v.slots, Pad(r.value), m[Pad(r.value)]);
      }
    }
  }

  /** What `untar` takes for granted: a name can be created exactly when `open` with O_CREAT does not refuse it. */
  lemma CreatableIff(x: State, m: map<seq<byte>, word>, pid: nat, path: seq<byte>)
    requires Shows(x.v, m) && RoomToOpen(x, pid, path)
    ensures Untar.Creatable(m.Keys, path) <==> !OpenRefused(x.v, Tab(x), pid, path, 3)
    ensures Untar.Creatable(m.Keys, path) <==>
      DirShape(x.v) && PathInode(x.v, path) == 0 && Stripped(path).Some? && Stripped(path).value != []
  {
    hide Pad, Stripped, Search, DirOk, Bound;
    RefusedIff(x, m, pid, path, true);
    var r := Stripped(path);
    if r.Some? && r.value != [] {
      PathShown(x.v, m, path, r.value);
      if Pad(r.value) in m {
        assert Bound(x.v.slots, Pad(r.value), m[Pad(r.value)]);
        BoundNumber(x.v.slots, Pad(r.value), m[Pad(r.value)]);
      }
    }
  }

  /** And after the creation the names are those there were and the new one, padded. */
  lemma CreatableAdds(x: State, c: Change, y: State, sb: SuperBlock, m: map<seq<byte>, word>)
    requires Sound(x, sb) && Shows(x.v, m) && By(x, c, y, sb) && c.Creating? && Orderly(x, c)
    ensures |c.name| <= MAX_FILENAME_LEN && Stripped(c.path) == Some(c.name) && Pad(c.name) !in m
    ensures Shows(y.v, m[Pad(c.name) := c.nr]) && m[Pad(c.name) := c.nr].Keys == m.Keys + {Pad(c.name)}
  {
    hide FileTable.Inv, Consistent, RootPinned, Pad, Search, DirOk, Bound, FindNr, Enter, Named, Allocated, Connect,
         Leads;
    ChangeNames(x, c, y, sb, m);
    NewName(x, c, y, sb);
    PathShown(x.v, m, c.path, c.name);
    if Pad(c.name) in m {
      assert Bound(x.v.slots, Pad(c.name), m[Pad(c.name)]);
      BoundNumber(x.v.slots, Pad(c.name), m[Pad(c.name)]);
    }
  }

  lemma NewName(x: State, c: Change, y: State, sb: SuperBlock)
    requires By(x, c, y, sb) && c.Creating?
    ensures DirShape(x.v) && PathInode(x.v, c.path) == 0 && NamesFile(c.path, c.name) && c.nr < WORD
  {
    hide PathInode, Stripped, Connect, Leads;
    NotRootPath(x.v, c.path);
  }
}
