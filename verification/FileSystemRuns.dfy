/** Whole runs of the file system task: what one turn of its loop does to disk and tables together, and what
    holds after any number of turns. */
module FileSystemRuns {
  import opened Const
  import opened BlockDevice
  import opened SectorMap
  import opened Words
  import opened Directory
  import opened DirectoryMap
  import opened FileTable
  import opened ReadWrite
  import opened Volume
  import opened VolumeDisk
  import opened UniformExtents
  import opened MakeFs
  import Super
  import opened FileSystem
  import Runs = FileTableRuns

  /** The disk and the tables; `held` are the references to i-node entries that no slot holds. */
  datatype State = State(v: Vol, inodes: seq<CachedInode>, descs: seq<Desc>, filp: seq<Option<nat>>, held: seq<nat>)

  ghost function Tab(x: State): Tables { TablesOf(x.inodes, x.descs, x.filp, x.v, x.held) }

  /** The disk is consistent, the counts are exact, the cache is transparent, the root directory is pinned. */
  ghost predicate Sound(x: State, sb: SuperBlock) { Consistent(x.v, sb) && Inv(Tab(x)) && RootPinned(Tab(x), sb) }

  /** What a turn of the loop may do. A request that is refused without a trace does nothing. */
  datatype Change =
    | Opening(path: seq<byte>, s: nat, f: nat, p: nat, flags: nat)
    | Creating(path: seq<byte>, s: nat, f: nat, flags: nat, nr: nat, first: int, p: nat, name: seq<byte>, m: Tables)
    | Closing(s: nat)
    | Forking(parent: nat, child: nat)
    | Exiting(pid: nat)
    | Stating(path: seq<byte>)
    | Refusing(path: seq<byte>)
    | Unlinking(path: seq<byte>)
    | Moving(s: nat, moved: nat)

  ghost predicate By(x: State, c: Change, y: State, sb: SuperBlock) {
    var t, u := Tab(x), Tab(y);
    match c
    case Opening(path, s, f, p, flags) =>
      y.v == x.v && OpenedOld(x.v, t, u, path, s, f, p, flags) && Runs.FreePair(t, s, f)
      && CanEnter(x.v, t, PathInode(x.v, path))
    case Creating(path, s, f, flags, nr, first, p, name, m) =>
      DirShape(x.v) && PathInode(x.v, path) == 0 && Runs.FreePair(t, s, f)
      && CreatedAndConnected(x.v, y.v, t, u, sb, path, s, f, flags, nr, first, p, name, m)
    case Closing(s) => y.v == x.v && Detached(t, u, s)
    case Forking(parent, child) => y.v == x.v && Did(t, u, Runs.Fork(parent, child))
    case Exiting(pid) => y.v == x.v && Did(t, u, Runs.Exit(pid))
    case Stating(path) => y.v == x.v && DirShape(x.v) && Did(t, u, Runs.Stat(PathInode(x.v, path)))
    case Refusing(path) =>
      y.v == x.v && UnlinkRefused(x.v, t, path) && u == Acquire(t, PathInode(x.v, path))
    case Unlinking(path) => Unlinked(x.v, y.v, t, u, sb, path)
    case Moving(s, moved) =>
      y.v == x.v.(recs := y.v.recs) && Advanced(t, u, s, moved)
      && (PosOf(t, s) + moved > Behind(t, s).size ==> t.descs[t.filp[s].value].inode.value != ROOT_ENTRY)
  }

  // ---------------------------------------------------------------- the loop

  /** The messages of `task_fs` (fs/main.c:26-60). */
  datatype Message =
    | OpenFileMsg(path: seq<byte>, flags: nat)
    | CloseMsg(fd: nat)
    | ReadMsg(fd: nat, len: nat)
    | WriteMsg(fd: nat, len: nat)
    | UnlinkMsg(path: seq<byte>)
    | ForkMsg(child: nat)
    | ExitMsg(gone: nat)
    | StatMsg(path: seq<byte>)

  ghost function StateOf(fs: Server): State
    requires fs.Objects()
    reads fs, fs.dev, fs.dev.data, fs.inodes, fs.descs, fs.filp
  {
    State(fs.V(), fs.inodes[..], fs.descs[..], fs.filp[..], fs.held)
  }

  /** The state before `do_fork` copied the slots of the parent. */
  ghost function Uncopied(x: State, child: nat): State { x.(filp := WithoutRow(Tab(x), child, 0).filp) }

  /** What the code takes for granted of a message from process `pid`: paths that lead into the i-node array,
      descriptors that are open, sectors on the device, slots copied by `do_fork`. */
  ghost predicate Acceptable(fs: Server, pid: nat, msg: Message, buf: array<byte>)
    requires fs.Objects()
    reads fs, fs.dev, fs.dev.data, fs.inodes, fs.descs, fs.filp
  {
    pid < NR_SLOTS && fs.Apart(buf) &&
    match msg
    case OpenFileMsg(path, flags) => Charted(fs.V(), path) && Roomy(fs.V())
    case CloseMsg(fd) => fd < NR_FILES && fs.filp[pid * NR_FILES + fd].Some?
    case ReadMsg(fd, len) => fd < NR_FILES && Ready(fs, pid * NR_FILES + fd, len, false, buf)
    case WriteMsg(fd, len) => fd < NR_FILES && Ready(fs, pid * NR_FILES + fd, len, true, buf)
    case UnlinkMsg(path) => Charted(fs.V(), path)
    case ForkMsg(child) =>
      child < NR_SLOTS && child != pid && Row(fs.filp[..], pid) == Row(fs.filp[..], child)
    case ExitMsg(gone) => gone < NR_SLOTS
    case StatMsg(path) => Charted(fs.V(), path)
  }

  ghost predicate Ready(fs: Server, s: nat, len: nat, write: bool, buf: array<byte>)
    requires fs.Objects()
    reads fs, fs.dev, fs.dev.data, fs.inodes, fs.descs, fs.filp
  {
    len <= buf.Length && Transferable(fs.T(), fs.dev, s, len, write) && Tame(fs.T(), fs.sb, s, len, write)
  }

  /** The state in which the loop finds disk and tables. */
  ghost function Before(fs: Server, msg: Message): State
    requires fs.Objects()
    reads fs, fs.dev, fs.dev.data, fs.inodes, fs.descs, fs.filp
  {
    if msg.ForkMsg? then Uncopied(StateOf(fs), msg.child) else StateOf(fs)
  }

  lemma UncopiedTab(x: State, child: nat)
    ensures Tab(Uncopied(x, child)) == WithoutRow(Tab(x), child, 0) && Uncopied(x, child).v == x.v
    ensures forall sb :: RootPinned(WithoutRow(Tab(x), child, 0), sb) ==> RootPinned(Tab(x), sb)
  {
  }

  /** The slots that `do_fork` copied lead to open files. */
  lemma CopiedReady(x: State, sb: SuperBlock, pid: nat, child: nat)
    requires Sound(Uncopied(x, child), sb) && pid < NR_SLOTS && child < NR_SLOTS && child != pid
    requires |x.filp| == NR_FILP && Row(x.filp, pid) == Row(x.filp, child)
    ensures forall i :: 0 <= i < NR_FILES && Row(x.filp, child)[i].Some? ==> Opens(x.descs, Row(x.filp, child)[i].value)
  {
    hide Inv, Consistent, RootPinned;
    var t := Tab(Uncopied(x, child));
    UncopiedTab(x, child);
    assert forall s :: 0 <= s < NR_FILP && !InRow(child, s) ==> t.filp[s] == x.filp[s];
    forall i | 0 <= i < NR_FILES ensures Row(t.filp, pid)[i] == Row(x.filp, pid)[i] {
      assert !InRow(child, pid * NR_FILES + i);
      assert Row(t.filp, pid)[i] == t.filp[pid * NR_FILES + i] && Row(x.filp, pid)[i] == x.filp[pid * NR_FILES + i];
    }
    assert Row(t.filp, pid) == Row(x.filp, pid);
    ForkReady(t, pid, child, Tab(x));
  }

  lemma OpenedBy(x: State, y: State, sb: SuperBlock, pid: nat, path: seq<byte>, flags: nat, fd: int) returns (c: Change)
    requires Opened(x.v, y.v, Tab(x), Tab(y), sb, pid, path, flags, fd)
    requires |x.inodes| == NR_INODE && !OpenStops(x.v, Tab(x), sb, pid, path, flags)
      && !OpenRefused(x.v, Tab(x), pid, path, flags)
    ensures By(x, c, y, sb) && Answers(pid, OpenFileMsg(path, flags), c, Value(fd))
  {
    hide PathInode, Leads, Stripped, FileCreated, Connect, FreeDesc, FreeFd, EntryFor, Acquire;
    var s, f := pid * NR_FILES + fd, FreeDesc(x.descs);
    assert Row(x.filp, pid)[fd] == x.filp[s];
    if flags % 2 == O_CREAT {
      var nr, first, p, name, m :| CreatedAndConnected(x.v, y.v, Tab(x), Tab(y), sb, path, s, f, flags, nr, first, p,
        name, m);
      c := Creating(path, s, f, flags, nr, first, p, name, m);
    } else {
      var p :| OpenedOld(x.v, Tab(x), Tab(y), path, s, f, p, flags);
      c := Opening(path, s, f, p, flags);
    }
  }

  /** Where the bytes of a transfer through slot `s` begin on the disk. */
  function BaseOf(t: Tables, s: nat): nat
    requires UsedSlot(t, s)
  {
    Behind(t, s).startSect * SECTOR_SIZE + PosOf(t, s)
  }

  /** What a turn does to the bytes behind the directory, where the files are: `w` is what it writes there. */
  ghost predicate Carries(x: State, c: Change, d: seq<byte>, e: seq<byte>, w: seq<byte>, sb: SuperBlock) {
    if w == [] then SameFiles(e, d, sb)
    else
      && c.Moving? && UsedSlot(Tab(x), c.s) && |w| == c.moved && BaseOf(Tab(x), c.s) + |w| <= |d|
      && SameFiles(e, Splice(d, BaseOf(Tab(x), c.s), w), sb)
  }

  /** What a read puts into the user's buffer. */
  ghost predicate Returns(x: State, c: Change, d: seq<byte>, b: seq<byte>) {
    && c.Moving? && UsedSlot(Tab(x), c.s) && c.moved <= |b|
    && (c.moved > 0 ==>
          BaseOf(Tab(x), c.s) + c.moved <= |d|
          && b[..c.moved] == d[BaseOf(Tab(x), c.s)..BaseOf(Tab(x), c.s) + c.moved])
  }

  /** A write that ends within its extent, and a read that ends within the size, move all of their bytes. */
  ghost predicate InFull(x: State, c: Change, len: nat, write: bool) {
    && c.Moving? && UsedSlot(Tab(x), c.s) && c.moved <= len
    && (PosOf(Tab(x), c.s) + len <= (if write then Behind(Tab(x), c.s).nrSects * 512 else Behind(Tab(x), c.s).size) ==>
          c.moved == len)
  }

  /** Slot `s` leads to a descriptor that was not opened for reading and writing. */
  predicate NotOpenedRdwr(x: State, s: nat) {
    s < |x.filp| && x.filp[s].Some? && x.filp[s].value < |x.descs| && x.descs[x.filp[s].value].mode / 2 % 2 == 0
  }

  /** The bytes that a write takes from the user's buffer. */
  function Sent(msg: Message, r: Reply, u: seq<byte>): seq<byte> {
    if msg.WriteMsg? && r.Value? && 0 < r.n <= |u| then u[..r.n] else []
  }

  lemma BytesCarried(x: State, y: State, d: seq<byte>, m: seq<byte>, e: seq<byte>, u: seq<byte>, b: seq<byte>,
                     sb: SuperBlock, c: Change, len: nat, write: bool)
    requires c.Moving? && ServedBy(Tab(x), Tab(y), d, e, u, b, sb, c.s, len, write, c.moved, m)
    ensures c.moved <= |u| && InFull(x, c, len, write)
    ensures Carries(x, c, d, e, if write then u[..c.moved] else [], sb) && (!write ==> Returns(x, c, d, b))
  {
    hide Advanced, Synced, Splice, Window, Sectors;
    CountWithin(Behind(Tab(x), c.s), PosOf(Tab(x), c.s), len, write);
  }

  lemma ServedBytes(x: State, y: State, d: seq<byte>, e: seq<byte>, u: seq<byte>, b: seq<byte>, sb: SuperBlock,
                    s: nat, len: nat, write: bool, r: Reply) returns (c: Change)
    requires Served(Tab(x), Tab(y), d, e, u, b, sb, s, len, write, r) && Tame(Tab(x), sb, s, len, write)
    requires RootPinned(Tab(x), sb) && y.v == x.v.(recs := y.v.recs)
    ensures By(x, c, y, sb) && c.Moving? && c.s == s && r == Value(c.moved) && c.moved <= len
    ensures c.moved <= |u| && Carries(x, c, d, e, if write then u[..c.moved] else [], sb)
    ensures (!write ==> Returns(x, c, d, b)) && InFull(x, c, len, write)
  {
    hide Carries, Returns, Synced, RecordWritten, Splice, Count, Agree, Moved, Runs.Movable, Runs.Advance;
    var moved: nat, m :| r == Value(moved) && ServedBy(Tab(x), Tab(y), d, e, u, b, sb, s, len, write, moved, m);
    if PosOf(Tab(x), s) + moved > Behind(Tab(x), s).size {
      GrowsBehind(Tab(x), sb, s, len, write, moved, d, m, u, b);
    }
    c := Moving(s, moved);
    BytesCarried(x, y, d, m, e, u, b, sb, c, len, write);
  }

  /** One turn of the loop of `task_fs` (fs/main.c:26-60): unless it stops, it is one change of a run, or
      it answers -1 and nothing has happened. */
  method HandleMessage(fs: Server, pid: nat, msg: Message, buf: array<byte>) returns (r: Reply, ghost c: Change)
    requires fs.Objects() && Sound(Before(fs, msg), fs.sb) && Acceptable(fs, pid, msg, buf)
    modifies fs, fs.inodes, fs.descs, fs.filp, fs.dev.data, fs.dev.fsbuf, buf
    ensures r != Stop ==> fs.Objects() && Handled(old(Before(fs, msg)), c, StateOf(fs), fs.sb, pid, msg, r)
    ensures r != Stop ==>
      Carries(old(Before(fs, msg)), c, old(fs.dev.data[..]), fs.dev.data[..], Sent(msg, r, old(buf[..])), fs.sb)
    ensures r != Stop && msg.ReadMsg? && r != Value(-1) ==>
      Returns(old(Before(fs, msg)), c, old(fs.dev.data[..]), buf[..])
    ensures r != Stop && (msg.ReadMsg? || msg.WriteMsg?) ==>
      if old(NotOpenedRdwr(Before(fs, msg), pid * NR_FILES + msg.fd)) then r == Value(-1)
      else InFull(old(Before(fs, msg)), c, msg.len, msg.WriteMsg?)
  {
    hide InFull, NotOpenedRdwr;
    hide SameFiles, Returns, VolAt, Inv, Consistent, PathInode, Leads, Acquire, By, Opened, Served, Stripped, Runs.Step,
         Runs.Enabled, WithoutRow, OpenStops, OpenRefused;
    ghost var x := Before(fs, msg);
    c := Closing(0);
    FilesSame(fs.dev.data[..], fs.sb);
    match msg
    case OpenFileMsg(path, flags) =>
      r := fs.DoOpen(pid, path, flags);
      if r.Value? && r.n != -1 { c := OpenedBy(x, StateOf(fs), fs.sb, pid, path, flags, r.n); }
    case CloseMsg(fd) =>
      r := fs.DoClose(pid, fd);
      c := Closing(pid * NR_FILES + fd);
      assert By(x, c, StateOf(fs), fs.sb) by { ClosedBy(x, StateOf(fs), fs.sb, pid * NR_FILES + fd); }
    case ReadMsg(fd, len) => r, c := HandleBytes(fs, pid, fd, len, false, buf, msg);
    case WriteMsg(fd, len) => r, c := HandleBytes(fs, pid, fd, len, true, buf, msg);
    case UnlinkMsg(path) => r, c := HandleUnlink(fs, pid, path);
    case ForkMsg(child) =>
      UncopiedTab(StateOf(fs), child);
      CopiedReady(StateOf(fs), fs.sb, pid, child);
      r := fs.FsFork(child, pid);
      c := Forking(pid, child);
      StepBy(x, c, StateOf(fs), fs.sb);
    case ExitMsg(gone) =>
      r := fs.FsExit(gone);
      c := Exiting(gone);
      StepBy(x, c, StateOf(fs), fs.sb);
    case StatMsg(path) =>
      ghost var st;
      r, st := fs.DoStat(path);
      c := Stating(path);
      if r == Value(0) { StepBy(x, c, StateOf(fs), fs.sb); }
  }

  ghost predicate Handled(x: State, c: Change, y: State, sb: SuperBlock, pid: nat, msg: Message, r: Reply) {
    (r == Value(-1) && y == x && !msg.CloseMsg? && !msg.ForkMsg? && !msg.ExitMsg?)
    || (By(x, c, y, sb) && Answers(pid, msg, c, r))
  }

  /** The change is what the message asked for, and the reply says so. */
  predicate Answers(pid: nat, msg: Message, c: Change, r: Reply) {
    match msg
    case OpenFileMsg(path, flags) =>
      r.Value? && (if flags % 2 == O_CREAT then c.Creating? else c.Opening?)
      && c.path == path && c.flags == flags && c.s == pid * NR_FILES + r.n
    case CloseMsg(fd) => r == Value(0) && c == Closing(pid * NR_FILES + fd)
    case ReadMsg(fd, len) => c.Moving? && c.s == pid * NR_FILES + fd && r == Value(c.moved) && c.moved <= len
    case WriteMsg(fd, len) => c.Moving? && c.s == pid * NR_FILES + fd && r == Value(c.moved) && c.moved <= len
    case UnlinkMsg(path) => (r == Value(0) && c == Unlinking(path)) || (r == Value(-1) && c == Refusing(path))
    case ForkMsg(child) => r == Value(0) && c == Forking(pid, child)
    case ExitMsg(gone) => r == Value(0) && c == Exiting(gone)
    case StatMsg(path) => r == Value(0) && c == Stating(path)
  }

  lemma ClosedBy(x: State, y: State, sb: SuperBlock, s: nat)
    requires y.v == x.v && Detached(Tab(x), Tab(y), s)
    ensures By(x, Closing(s), y, sb)
  {
  }

  lemma StepBy(x: State, c: Change, y: State, sb: SuperBlock)
    requires y.v == x.v
    requires match c
      case Forking(parent, child) => Did(Tab(x), Tab(y), Runs.Fork(parent, child))
      case Exiting(pid) => Did(Tab(x), Tab(y), Runs.Exit(pid))
      case Stating(path) => DirShape(x.v) && Did(Tab(x), Tab(y), Runs.Stat(PathInode(x.v, path)))
      case _ => false
    ensures By(x, c, y, sb)
  {
  }

  /** READ and WRITE. */
  method HandleBytes(fs: Server, pid: nat, fd: nat, len: nat, write: bool, buf: array<byte>, ghost msg: Message)
    returns (r: Reply, ghost c: Change)
    requires msg == if write then WriteMsg(fd, len) else ReadMsg(fd, len)
    requires fs.Valid() && pid < NR_SLOTS && fd < NR_FILES && fs.Apart(buf)
      && Ready(fs, pid * NR_FILES + fd, len, write, buf)
    modifies fs.inodes, fs.descs, fs.dev.data, fs.dev.fsbuf, buf
    ensures fs.Valid() && Handled(old(StateOf(fs)), c, StateOf(fs), fs.sb, pid, msg, r)
    ensures Carries(old(StateOf(fs)), c, old(fs.dev.data[..]), fs.dev.data[..], Sent(msg, r, old(buf[..])), fs.sb)
    ensures !write && r != Value(-1) ==> Returns(old(StateOf(fs)), c, old(fs.dev.data[..]), buf[..])
    ensures if old(NotOpenedRdwr(StateOf(fs), pid * NR_FILES + fd)) then r == Value(-1)
            else InFull(old(StateOf(fs)), c, len, write)
  {
    hide InFull, SameFiles, Returns, VolAt, Inv, By, Served;
    ghost var x, d, u := StateOf(fs), fs.dev.data[..], buf[..];
    RecsAre(d, fs.sb);
    c := Closing(0);
    r := fs.DoRdwt(pid, fd, write, len, buf);
    if r != Value(-1) {
      c := ServedBytes(x, StateOf(fs), d, fs.dev.data[..], u, buf[..], fs.sb, pid * NR_FILES + fd, len, write, r);
    } else {
      SameState(x, StateOf(fs));
      FilesSame(d, fs.sb);
    }
  }

  /** The tables and the disk determine the state. */
  lemma SameState(x: State, y: State)
    requires Tab(y) == Tab(x) && (y.v == x.v || y.v == x.v.(recs := y.v.recs))
    ensures y == x
  {
  }

  /** UNLINK. */
  method HandleUnlink(fs: Server, ghost pid: nat, path: seq<byte>) returns (r: Reply, ghost c: Change)
    requires fs.Valid() && Consistent(fs.V(), fs.sb) && Charted(fs.V(), path)
    modifies fs`held, fs.inodes, fs.dev.data, fs.dev.fsbuf
    ensures r != Stop ==> fs.Objects() && Handled(old(StateOf(fs)), c, StateOf(fs), fs.sb, pid, UnlinkMsg(path), r)
    ensures r != Stop ==> SameFiles(fs.dev.data[..], old(fs.dev.data[..]), fs.sb)
  {
    hide SameFiles, VolAt, Inv, Consistent, PathInode, Leads, Acquire, Unlinked, Freed, InTheWay, Stripped, FindNr;
    ghost var x := StateOf(fs);
    r := fs.DoUnlink(path);
    c := if UnlinkRefused(x.v, Tab(x), path) then Refusing(path) else Unlinking(path);
    if r == Value(-1) && !c.Refusing? { SameState(x, StateOf(fs)); }
  }

  // ---------------------------------------------------------------- one change

  /** What is opened, and what is refused and therefore stays in memory, is in use. */
  predicate Led(x: State, c: Change) {
    match c
    case Opening(path, _, _, _, _) => Leads(x.v, path)
    case Refusing(path) => Leads(x.v, path)
    case _ => true
  }

  ghost predicate Requested(x: State, c: Change, y: State, q: Runs.Request) {
    && Did(Tab(x), Tab(y), q)
    && (c.Refusing? <==> q.Unlink? && Runs.Refuses(Tab(x), q.num))
    && (c.Refusing? ==> DirShape(x.v) && q.num == PathInode(x.v, c.path))
  }

  /** Every such change is a request of module FileTableRuns, and a refused unlink is a refused unlink. */
  lemma AsRequest(x: State, c: Change, y: State, sb: SuperBlock) returns (q: Runs.Request)
    requires Sound(x, sb) && By(x, c, y, sb) && Led(x, c)
    ensures Requested(x, c, y, q)
  {
    hide Inv, Consistent, PathInode, Leads, FileCreated, Acquire, EntryFor, Connect, Runs.Step, Runs.Advance,
         Runs.Movable, Stripped, FindNr;
    var t, u := Tab(x), Tab(y);
    match c
    case Opening(path, s, f, p, flags) =>
      LeadsLive(x.v, path);
      OpenIsStep(x.v, t, u, path, s, f, p, flags);
      q := Runs.Open(PathInode(x.v, path), s, f, flags);
    case Creating(path, s, f, flags, nr, first, p, name, m) =>
      TableShape(t);
      NumberUnused(x.v, y.v, t, m, sb, nr, first, p, name);
      CreateIsStep(x.v, y.v, t, u, sb, path, s, f, flags, nr, first, p, name, m);
      q := Runs.Create(nr, NewRecord(sb, first), SizeOf(Grown(x.v.slots, Entries(x.v))), s, f, flags);
    case Closing(s) =>
      CloseIsStep(t, u, s);
      q := Runs.Close(s);
    case Forking(parent, child) => q := Runs.Fork(parent, child);
    case Exiting(pid) => q := Runs.Exit(pid);
    case Stating(path) =>
      q := Runs.Stat(PathInode(x.v, path));
    case Refusing(path) =>
      LeadsShape(x.v, path);
      RefusedLive(x.v, t, path);
      RefusalIsStep(x.v, t, sb, path);
      q := Runs.Unlink(PathInode(x.v, path), None);
    case Unlinking(path) => q := Runs.Unlink(PathInode(x.v, path), NewSize(x.v, PathInode(x.v, path)));
    case Moving(s, moved) =>
      MoveIsStep(t, u, s, moved);
      q := Runs.Move(s, moved);
  }

  lemma NumberUnused(v: Vol, w: Vol, t: Tables, m: Tables, sb: SuperBlock, nr: nat, first: int, p: nat, name: seq<byte>)
    requires FileCreated(v, w, t, m, sb, nr, first, p, name)
    ensures nr !in v.inodeMap && |t.filp| == |m.filp| && |t.descs| == |m.descs|
    ensures Geometry(sb) && sb.n1stSect > 0 && 0 <= first <= MapBits(sb) && DirShape(v)
      && Grown(v.slots, Entries(v)) <= DIR_SLOTS
  {
    hide Named, Allocated, FindNr;
    FitFree(v.inodeMap, NR_RECORDS, 1, nr);
  }

  lemma LeadsShape(v: Vol, path: seq<byte>)
    requires Leads(v, path)
    ensures DirShape(v)
  {
  }

  lemma RefusedLive(v: Vol, t: Tables, path: seq<byte>)
    requires Leads(v, path) && UnlinkRefused(v, t, path)
    ensures PathInode(v, path) in v.inodeMap - {0}
  {
    hide PathInode, Acquire, EntryFor;
    LeadsLive(v, path);
  }

  /** A new file has a harmless name, and what is opened or refused is in use. */
  predicate Spares(x: State, c: Change) { SafelyNamed(x, c) && Led(x, c) }

  predicate SafelyNamed(x: State, c: Change) { c.Creating? ==> Roomy(x.v) && Harmless(x.v, c.name) }

  /** What a change does to the disk leaves it consistent, unless it creates a harmful name. */
  lemma ChangeConsistent(x: State, c: Change, y: State, sb: SuperBlock)
    requires Sound(x, sb) && By(x, c, y, sb)
    ensures Consistent(y.v, sb) <==> SafelyNamed(x, c)
  {
    hide Inv, Consistent, PathInode, Leads, Acquire, EntryFor, Connect, Harmless, Runs.Step, Runs.Advance,
         Runs.Movable, Stripped, FindNr, Named, Allocated, Freed, Unnamed;
    var t, u := Tab(x), Tab(y);
    match c
    case Creating(path, s, f, flags, nr, first, p, name, m) =>
      CreatedConsistent(x.v, y.v, t, m, sb, nr, first, p, name);
    case Unlinking(path) => UnlinkKeeps(x.v, sb, PathInode(x.v, path));
    case Moving(s, moved) =>
      GrowsElsewhere(t, sb, s, moved);
      TransferConsistent(x.v, t, u, sb, s, moved);
    case _ =>
  }

  /** Only the pinned entry is the root directory. */
  lemma GrowsElsewhere(t: Tables, sb: SuperBlock, s: nat, moved: nat)
    requires Inv(t) && RootPinned(t, sb) && UsedSlot(t, s)
    ensures var p := t.descs[t.filp[s].value].inode.value;
      t.inodes[p].cnt > 0 && (p != ROOT_ENTRY ==> t.inodes[p].num != ROOT_INODE)
  {
    hide Targets;
    SlotCounts(t, s);
    RootRecord(t, sb);
  }

  /** An i-node that is not in use must not stay in memory. */
  lemma NotLed(x: State, c: Change, y: State, sb: SuperBlock)
    requires Sound(x, sb) && By(x, c, y, sb) && !Led(x, c)
    ensures !Inv(Tab(y))
  {
    hide ExtentsOk, SmapExact, NamesOk, PathInode, EntryFor, Stripped, DescCounts, InodeCounts, CanEnter, CacheOk;
    var t := Tab(x);
    AcquireCache(t, PathInode(x.v, c.path));
    NotLive(x.v, c.path);
    assert !CacheOk(Acquire(t, PathInode(x.v, c.path)));
    CacheOnly(Acquire(t, PathInode(x.v, c.path)), Tab(y));
  }

  lemma NotLive(v: Vol, path: seq<byte>)
    requires DirShape(v) && !Leads(v, path) && 1 <= PathInode(v, path) <= NR_RECORDS
    requires forall n :: n in v.inodeMap ==> n < NR_RECORDS
    ensures PathInode(v, path) !in v.inodeMap - {0}
  {
    hide PathInode;
  }

  lemma CacheOnly(t: Tables, u: Tables)
    requires u.inodes == t.inodes && u.recs == t.recs && u.live == t.live
    ensures CacheOk(u) <==> CacheOk(t)
  {
  }

  /** A change keeps disk and tables sound if and only if it creates no harmful name and neither opens nor refuses
      an i-node that is not in use. */
  lemma ChangeSoundIff(x: State, c: Change, y: State, sb: SuperBlock)
    requires Sound(x, sb) && By(x, c, y, sb)
    ensures Sound(y, sb) <==> Spares(x, c)
  {
    hide Inv, Consistent, By, SafelyNamed, Led, Runs.Step, Runs.Enabled;
    if !Led(x, c) {
      NotLed(x, c, y, sb);
      return;
    }
    var q := AsRequest(x, c, y, sb);
    Runs.StepKeeps(Tab(x), q);
    Runs.StepNumber(Tab(x), q, ROOT_ENTRY);
    ChangeConsistent(x, c, y, sb);
    if Consistent(y.v, sb) { StillPinned(Tab(y), y.v, sb); }
  }

  lemma StillPinned(t: Tables, v: Vol, sb: SuperBlock)
    requires Inv(t) && Consistent(v, sb) && t.recs == v.recs
    requires t.held[ROOT_ENTRY] > 0 && t.inodes[ROOT_ENTRY].num == ROOT_INODE
    ensures RootPinned(t, sb)
  {
    hide Consistent, Targets;
    RootUsable(v, sb);
    Runs.HeldInUse(t, ROOT_ENTRY);
  }

  // ---------------------------------------------------------------- runs

  ghost predicate Run(run: seq<State>, cs: seq<Change>, sb: SuperBlock) {
    |run| == |cs| + 1 && forall i :: 0 <= i < |cs| ==> By(run[i], cs[i], run[i + 1], sb)
  }

  ghost predicate SoundUpTo(run: seq<State>, sb: SuperBlock, n: nat)
    requires n < |run|
  {
    forall i :: 0 <= i <= n ==> Sound(run[i], sb)
  }

  ghost predicate SparesUpTo(run: seq<State>, cs: seq<Change>, n: nat)
    requires n <= |cs| < |run|
  {
    forall i :: 0 <= i < n ==> Spares(run[i], cs[i])
  }

  /** In every run, all states are sound if and only if no harmful name has been created, and no i-node that is not
      in use has been opened or refused. */
  lemma {:induction false} RunSoundIff(run: seq<State>, cs: seq<Change>, sb: SuperBlock, n: nat)
    requires Run(run, cs, sb) && Sound(run[0], sb) && n <= |cs|
    ensures SoundUpTo(run, sb, n) <==> SparesUpTo(run, cs, n)
  {
    hide Sound, By, Spares;
    if n > 0 {
      RunSoundIff(run, cs, sb, n - 1);
      assert By(run[n - 1], cs[n - 1], run[n - 1 + 1], sb);
      assert SoundUpTo(run, sb, n) <==> SoundUpTo(run, sb, n - 1) && Sound(run[n], sb);
      assert SparesUpTo(run, cs, n) <==> SparesUpTo(run, cs, n - 1) && Spares(run[n - 1], cs[n - 1]);
      if Sound(run[n - 1], sb) { ChangeSoundIff(run[n - 1], cs[n - 1], run[n], sb); }
    }
  }

  // ---------------------------------------------------------------- counts over runs

  lemma {:induction false} Requests(run: seq<State>, cs: seq<Change>, sb: SuperBlock,
                                    n: nat) returns (qs: seq<Runs.Request>)
    requires Run(run, cs, sb) && n <= |cs| && SoundUpTo(run, sb, |cs|)
    ensures |qs| == n && forall i :: 0 <= i < n ==> Asked(run, cs, qs, i)
  {
    hide Sound, By, Did, PathInode;
    if n == 0 {
      qs := [];
    } else {
      var rest := Requests(run, cs, sb, n - 1);
      assert By(run[n - 1], cs[n - 1], run[n - 1 + 1], sb) && Sound(run[n - 1], sb);
      ChangeSoundIff(run[n - 1], cs[n - 1], run[n], sb);
      var q := AsRequest(run[n - 1], cs[n - 1], run[n], sb);
      qs := rest + [q];
      forall i | 0 <= i < n ensures Asked(run, cs, qs, i) {
        assert i < n - 1 ==> Asked(run, cs, rest, i);
      }
    }
  }

  ghost predicate Asked(run: seq<State>, cs: seq<Change>, qs: seq<Runs.Request>, i: nat)
    requires i < |cs| && |cs| < |run| && i < |qs|
  {
    Requested(run[i], cs[i], run[i + 1], qs[i])
  }

  ghost function Tabs(run: seq<State>): (ts: seq<Tables>)
    ensures |ts| == |run|
  {
    seq(|run|, i requires 0 <= i < |run| => Tab(run[i]))
  }

  /** After every run of the file system task in which all states are sound, `i_cnt` is the number
      of `filp` slots that reach the i-node plus the root pin if and only if no unlink was refused; the
      descriptor counts are exact and the cache is transparent in any case. */
  lemma RunCountsIff(run: seq<State>, cs: seq<Change>, sb: SuperBlock)
    requires Run(run, cs, sb) && Sound(run[0], sb) && Runs.Fresh(Tab(run[0])) && SparesUpTo(run, cs, |cs|)
    ensures Runs.Exact(Tab(run[|cs|])) <==> forall i :: 0 <= i < |cs| ==> !cs[i].Refusing?
    ensures DescCounts(Tab(run[|cs|])) && CacheOk(Tab(run[|cs|]))
  {
    hide Sound, By, Spares, Tab, Runs.Exact, Runs.Fresh, Runs.Step, Runs.Enabled, Runs.RefusedAt, DescCounts, CacheOk;
    RunSoundIff(run, cs, sb, |cs|);
    var qs := Requests(run, cs, sb, |cs|);
    var ts := Tabs(run);
    TablesRun(run, cs, sb, qs);
    Runs.RunExactIff(ts, qs);
    assert Runs.NoneRefused(ts, qs, |qs|) <==> forall i :: 0 <= i < |cs| ==> !Runs.RefusedAt(ts, qs, i);
  }

  /** The tables of a run are a run of module FileTableRuns. */
  lemma TablesRun(run: seq<State>, cs: seq<Change>, sb: SuperBlock, qs: seq<Runs.Request>)
    requires Run(run, cs, sb) && |qs| == |cs| && forall i :: 0 <= i < |cs| ==> Asked(run, cs, qs, i)
    ensures Runs.Run(Tabs(run), qs)
    ensures forall i :: 0 <= i < |cs| ==> (Runs.RefusedAt(Tabs(run), qs, i) <==> cs[i].Refusing?)
  {
    hide Tab, By, Runs.Step, Runs.Enabled, Runs.Refuses, PathInode;
    var ts := Tabs(run);
    forall i | 0 <= i < |qs| ensures Runs.Enabled(ts[i], qs[i]) && ts[i + 1] == Runs.Step(ts[i], qs[i]) {
      assert Asked(run, cs, qs, i);
    }
    forall i | 0 <= i < |cs| ensures Runs.RefusedAt(ts, qs, i) <==> cs[i].Refusing? {
      assert Asked(run, cs, qs, i);
    }
  }

  /** A refusal is for good: at any later moment of the run, an unlink whose path leads to the same file is
      refused too. */
  lemma RunRefuses(run: seq<State>, cs: seq<Change>, sb: SuperBlock, i: nat, n: nat, path: seq<byte>)
    requires Run(run, cs, sb) && Sound(run[0], sb) && SparesUpTo(run, cs, |cs|) && i < n <= |cs| && cs[i].Refusing?
    requires DirShape(run[i].v) && Reached(run[n].v, Tab(run[n]), path)
    requires PathInode(run[n].v, path) == PathInode(run[i].v, cs[i].path)
    ensures UnlinkRefused(run[n].v, Tab(run[n]), path)
  {
    hide By, Spares, Runs.Step, Runs.Enabled, Runs.Refuses, PathInode, Consistent, Inv, RootPinned,
         UnlinkRefused, EntryFor;
    RunSoundIff(run, cs, sb, |cs|);
    var qs := Requests(run, cs, sb, |cs|);
    assert Asked(run, cs, qs, i);
    TablesRun(run, cs, sb, qs);
    assert Sound(run[i], sb) && Tabs(run)[i] == Tab(run[i]) && Tabs(run)[n] == Tab(run[n]);
    RefusedForGood(Tabs(run), qs, i, n, run[n].v, path);
  }

  // ---------------------------------------------------------------- names over runs

  /** The directory shows the map `m` from padded names to i-node numbers. */
  ghost predicate Shows(v: Vol, m: map<seq<byte>, word>) {
    && DirShape(v) && DirOk(v.slots, Entries(v))
    && forall key, n :: Bound(v.slots, key, n) <==> key in m && m[key] == n
  }

  /** What a change does to the map: a new file adds its name, a removed file takes its name away. */
  function Renamed(m: map<seq<byte>, word>, c: Change): map<seq<byte>, word> {
    if c.Creating? && |c.name| <= MAX_FILENAME_LEN && c.nr < WORD then m[Pad(c.name) := c.nr]
    else if c.Unlinking? && Stripped(c.path).Some? then m - {Pad(Stripped(c.path).value)}
    else m
  }

  function RenamedAll(m: map<seq<byte>, word>, cs: seq<Change>): map<seq<byte>, word> {
    if |cs| == 0 then m else Renamed(RenamedAll(m, cs[..|cs| - 1]), cs[|cs| - 1])
  }

  /** A new name spoils no entry, and the last slot is not removed behind a free one. */
  ghost predicate Orderly(x: State, c: Change) {
    && (c.Creating? ==> Roomy(x.v) && !Harms(x.v.slots, Place(x.v.slots, Entries(x.v)), c.name))
    && (c.Unlinking? ==>
          DirShape(x.v)
          && var at := FindNr(x.v.slots, PathInode(x.v, c.path)); at + 1 < Entries(x.v) || Compact(x.v.slots[..at]))
  }

  lemma OrderlySpares(x: State, c: Change, sb: SuperBlock, m: map<seq<byte>, word>)
    requires Sound(x, sb) && Orderly(x, c) && Shows(x.v, m)
    ensures Spares(x, c)
  {
    hide Inv, RootPinned, Harms, Harmless, FindNr, ImapOk, ExtentsOk, SmapExact, NamesOk, Bound, Leads;
    match c
    case Creating(_, _, _, _, _, _, _, name, _) => HarmlessIf(x.v, name);
    case Opening(path, _, _, _, _) => PathsLead(x, sb, m, path);
    case Refusing(path) => PathsLead(x, sb, m, path);
    case _ =>
  }

  /** Where the directory is a map, every path leads nowhere or to an i-node in use. */
  lemma PathsLead(x: State, sb: SuperBlock, m: map<seq<byte>, word>, path: seq<byte>)
    requires Sound(x, sb) && Shows(x.v, m)
    ensures Leads(x.v, path)
  {
    hide Inv, RootPinned, Leads, Bound, ImapOk, ExtentsOk, SmapExact;
    assert x.v.slots[Entries(x.v)] == EMPTY;
    AlwaysLeads(x.v, sb, path);
  }

  /** A lookup is a lookup in the map. */
  lemma PathShown(v: Vol, m: map<seq<byte>, word>, path: seq<byte>, name: seq<byte>)
    requires Shows(v, m) && NamesFile(path, name)
    ensures PathInode(v, path) == if Pad(name) in m then m[Pad(name)] else 0
  {
    hide DirOk, Pad, Stripped, Search, Bound;
    StrippedProper(path);
    PadFirst(name);
    SearchIsLookup(v.slots, Entries(v), Pad(name));
    var r := Search(v.slots, Entries(v), Pad(name));
    if r != 0 {
      assert Bound(v.slots, Pad(name), r);
    } else if Pad(name) in m {
      assert Bound(v.slots, Pad(name), m[Pad(name)]);
      BoundNumber(v.slots, Pad(name), m[Pad(name)]);
    }
  }

  lemma BoundNumber(s: seq<Slot>, key: seq<byte>, n: word)
    requires Bound(s, key, n)
    ensures n != 0
  {
  }

  lemma CreatedNames(v: Vol, w: Vol, t: Tables, u: Tables, sb: SuperBlock, nr: nat, first: int, p: nat,
                     name: seq<byte>, m: map<seq<byte>, word>)
    requires FileCreated(v, w, t, u, sb, nr, first, p, name) && Consistent(v, sb) && Shows(v, m)
    requires ProperName(name) && Search(v.slots, Entries(v), Pad(name)) == 0
    ensures nr < WORD && (Shows(w, m[Pad(name) := nr]) <==> !Harms(v.slots, Place(v.slots, Entries(v)), name))
  {
    hide FindNr, Enter, Pad, Search, DirOk, FirstFit, Consistent, Harms, Bound, Named, Allocated;
    FreshNumber(v, sb, nr);
    NamedSlots(v, w, sb, nr, first, name);
    PadFirst(name);
    SearchIsLookup(v.slots, Entries(v), Pad(name));
    if Harms(v.slots, Place(v.slots, Entries(v)), name) {
      EnterHarms(v.slots, Entries(v), nr, name);
      var key, n :| Bound(v.slots, key, n) && !Bound(w.slots, key, n);
      if Pad(name) in m { BoundNumber(v.slots, Pad(name), m[Pad(name)]); }
      assert key in m && m[key] == n;
      assert m[Pad(name) := nr][key] == n;
      return;
    }
    EnterBinds(v.slots, Entries(v), nr, name);
    EntriesFew(w);
    forall key, n ensures Bound(w.slots, key, n) <==> key in m[Pad(name) := nr] && m[Pad(name) := nr][key] == n {
      if Bound(v.slots, key, n) { BoundNumber(v.slots, key, n); }
      assert Bound(w.slots, key, n) <==> (Bound(v.slots, key, n) || (key == Pad(name) && n == nr));
    }
  }

  lemma EntriesFew(v: Vol)
    requires |v.recs| == NR_RECORDS && DirOk(v.slots, Entries(v))
    ensures DirShape(v)
  {
  }

  /** The number of a new file is in no entry. */
  lemma FreshNumber(v: Vol, sb: SuperBlock, nr: nat)
    requires Consistent(v, sb) && DirOk(v.slots, Entries(v)) && FirstFit(v.inodeMap, NR_RECORDS, 1, nr)
    ensures 1 < nr < NR_RECORDS && FindNr(v.slots, nr) == DIR_SLOTS && |v.slots| == DIR_SLOTS
  {
    hide ExtentsOk, SmapExact, FindNr;
    FitFree(v.inodeMap, NR_RECORDS, 1, nr);
    assert forall m :: Entries(v) <= m < DIR_SLOTS ==> v.slots[m] == EMPTY;
    assert forall m :: 0 <= m < DIR_SLOTS ==> v.slots[m].nr != nr;
  }

  lemma UnlinkedNames(v: Vol, w: Vol, t: Tables, u: Tables, sb: SuperBlock, path: seq<byte>, name: seq<byte>,
                      m: map<seq<byte>, word>)
    requires Unlinked(v, w, t, u, sb, path) && Shows(v, m) && NamesFile(path, name)
    ensures Shows(w, m - {Pad(name)}) <==>
      var at := FindNr(v.slots, PathInode(v, path)); at + 1 < Entries(v) || Compact(v.slots[..at])
  {
    hide FindNr, Pad, Search, DirOk, Used, Acquire, EntryFor, Freed, UnlinkGranted, Stripped, Bound, Compact, Unnamed;
    var nr := PathInode(v, path);
    assert 1 <= nr && FindNr(v.slots, nr) < Entries(v) by { GrantedNumber(v, t, path); }
    StrippedProper(path);
    RemoveUnbinds(v.slots, Entries(v), nr);
    UnnamedSlots(v, Freed(v, sb, nr), w, sb, nr);
    PadFirst(name);
    SearchIsLookup(v.slots, Entries(v), Pad(name));
    assert Bound(v.slots, Pad(name), nr);
    forall key, n ensures Bound(w.slots, key, n) <==> key in m - {Pad(name)} && (m - {Pad(name)})[key] == n {
      assert Bound(w.slots, key, n) <==> Bound(v.slots, key, n) && n != nr;
      if Bound(v.slots, key, nr) { OneName(v.slots, Entries(v), key, Pad(name), nr); }
    }
  }

  lemma UnlinkedPath(v: Vol, w: Vol, t: Tables, u: Tables, sb: SuperBlock, path: seq<byte>)
    requires Unlinked(v, w, t, u, sb, path)
    ensures Stripped(path).Some? && NamesFile(path, Stripped(path).value)
  {
    hide Search, Freed, Unnamed, FindNr, Stripped, Acquire, EntryFor;
  }

  /** A number has one name. */
  lemma OneName(s: seq<Slot>, entries: nat, key: seq<byte>, key': seq<byte>, nr: word)
    requires DirOk(s, entries) && Bound(s, key, nr) && Bound(s, key', nr)
    ensures key == key'
  {
    var i :| 0 <= i < |s| && s[i] == Slot(nr, key);
    var j :| 0 <= j < |s| && s[j] == Slot(nr, key');
    assert i < entries && j < entries && Live(s[i]) && Live(s[j]);
  }

  /** A change does to the directory what it does to the map if and only if it is orderly. */
  lemma ChangeNames(x: State, c: Change, y: State, sb: SuperBlock, m: map<seq<byte>, word>)
    requires Sound(x, sb) && By(x, c, y, sb) && Shows(x.v, m)
    ensures Shows(y.v, Renamed(m, c)) <==> Orderly(x, c)
  {
    hide Inv, Consistent, RootPinned, Leads, Acquire, EntryFor, Connect, FindNr, DirOk, Pad, Search,
         FileCreated, Stripped;
    hide Runs.Step, Runs.Advance, Runs.Movable, Harms, Compact, Unlinked, Detached, OpenedOld, UnlinkRefused, Bound;
    match c
    case Creating(path, s, f, flags, nr, first, p, name, k) =>
      NotRootPath(x.v, path);
      StrippedProper(path);
      CreatedRoom(x, c, y, sb);
      CreatedNames(x.v, y.v, Tab(x), k, sb, nr, first, p, name, m);
    case Unlinking(path) =>
      UnlinkedPath(x.v, y.v, Tab(x), Tab(y), sb, path);
      UnlinkedNames(x.v, y.v, Tab(x), Tab(y), sb, path, Stripped(path).value, m);
    case Moving(s, moved) => MovedNames(x, c, y, sb, m);
    case _ =>
  }

  lemma CreatedRoom(x: State, c: Change, y: State, sb: SuperBlock)
    requires By(x, c, y, sb) && c.Creating?
    ensures Roomy(x.v)
  {
    hide Leads, PathInode, Connect, Named, Allocated, Stripped;
  }

  lemma MovedNames(x: State, c: Change, y: State, sb: SuperBlock, m: map<seq<byte>, word>)
    requires Sound(x, sb) && c.Moving? && By(x, c, y, sb) && Shows(x.v, m)
    ensures Shows(y.v, m)
  {
    hide Consistent, DirOk, Bound, DescCounts, InodeCounts;
    GrowsElsewhere(Tab(x), sb, c.s, c.moved);
    assert Tab(y).recs == y.v.recs && Tab(x).recs == x.v.recs;
    assert y.v.slots == x.v.slots && Rec(y.v, ROOT_INODE) == Rec(x.v, ROOT_INODE);
  }

  /** Every state up to the `n`-th is sound, and its directory is the map made by the changes so far. */
  ghost predicate ShowsUpTo(run: seq<State>, cs: seq<Change>, sb: SuperBlock, m: map<seq<byte>, word>, n: nat)
    requires n <= |cs| < |run|
  {
    forall i :: 0 <= i <= n ==> ShowsAt(run, cs, sb, m, i)
  }

  ghost predicate ShowsAt(run: seq<State>, cs: seq<Change>, sb: SuperBlock, m: map<seq<byte>, word>, i: nat)
    requires i <= |cs| < |run|
  {
    Sound(run[i], sb) && Shows(run[i].v, RenamedAll(m, cs[..i]))
  }

  ghost predicate OrderlyUpTo(run: seq<State>, cs: seq<Change>, n: nat)
    requires n <= |cs| < |run|
  {
    forall i :: 0 <= i < n ==> Orderly(run[i], cs[i])
  }

  /** Over every run the directory is the map that the creations and removals make, so that every path leads where
      the map says, and the file system stays sound, if and only if all changes are orderly. */
  lemma {:induction false} RunNames(run: seq<State>, cs: seq<Change>, sb: SuperBlock, m: map<seq<byte>, word>, n: nat)
    requires Run(run, cs, sb) && Sound(run[0], sb) && Shows(run[0].v, m) && n <= |cs|
    ensures ShowsUpTo(run, cs, sb, m, n) <==> OrderlyUpTo(run, cs, n)
  {
    hide Sound, By, Orderly, Shows, Renamed, Spares;
    if n == 0 {
      assert ShowsAt(run, cs, sb, m, 0);
    } else {
      RunNames(run, cs, sb, m, n - 1);
      var x, c, y, k := run[n - 1], cs[n - 1], run[n], RenamedAll(m, cs[..n - 1]);
      assert By(run[n - 1], cs[n - 1], run[n - 1 + 1], sb);
      assert ShowsUpTo(run, cs, sb, m, n) <==> ShowsUpTo(run, cs, sb, m, n - 1) && ShowsAt(run, cs, sb, m, n);
      assert OrderlyUpTo(run, cs, n) <==> OrderlyUpTo(run, cs, n - 1) && Orderly(x, c);
      assert cs[..n][..n - 1] == cs[..n - 1];
      if ShowsUpTo(run, cs, sb, m, n - 1) {
        assert ShowsAt(run, cs, sb, m, n - 1);
        ChangeNames(x, c, y, sb, k);
        if Orderly(x, c) {
          OrderlySpares(x, c, sb, k);
          ChangeSoundIff(x, c, y, sb);
        }
      }
    }
  }

  // ---------------------------------------------------------------- extents over runs

  /** cmd.tar and what came before it are not removed. */
  predicate KeepsBoot(x: State, c: Change) { c.Unlinking? ==> DirShape(x.v) && PathInode(x.v, c.path) > CMD_INODE }

  /** On the grid every name is harmless. */
  lemma GridSpares(x: State, c: Change, y: State, sb: SuperBlock)
    requires OnGrid(x.v, sb) && Low(x.v) && By(x, c, y, sb)
    ensures SafelyNamed(x, c)
  {
    hide Inv, Consistent, Leads, Connect, Stripped, Named, Allocated, PathInode, Low, Harmless;
    if c.Creating? { LowIsHarmless(x.v, sb, c.name); }
  }

  lemma ChangeOnGrid(x: State, c: Change, y: State, sb: SuperBlock)
    requires Sound(x, sb) && OnGrid(x.v, sb) && Low(x.v) && Gap(sb) && By(x, c, y, sb) && KeepsBoot(x, c)
    ensures OnGrid(y.v, sb) && Low(y.v)
  {
    hide Inv, Consistent, Leads, Acquire, EntryFor, Connect, FindNr, Stripped, OnGrid, Named, Allocated, Freed,
         Unnamed, PathInode, Low;
    hide Runs.Step, Runs.Enabled, Harmless, Detached, OpenedOld, UnlinkRefused, Shaped;
    match c
    case Creating(path, s, f, flags, nr, first, p, name, m) =>
      GridConsistent(x.v, sb);
      CreationShape(x.v, y.v, Tab(x), m, sb, nr, first, p, name);
      assert Creates(x.v, y.v, sb, nr, first, name);
      CreateOnGrid(x.v, y.v, sb, nr, first, name);
      CreateLow(x.v, y.v, sb, nr, first, name);
    case Unlinking(path) =>
      RemovalShape(x.v, sb, PathInode(x.v, path));
      assert Removes(x.v, y.v, sb, PathInode(x.v, path));
      RemoveOnGrid(x.v, y.v, sb, PathInode(x.v, path));
      assert y.v.inodeMap <= x.v.inodeMap && Low(y.v) by { RemoveLow(x.v, y.v, sb, PathInode(x.v, path)); }
    case Moving(s, moved) =>
      MovedOnGrid(x, c, y, sb);
      assert Low(y.v) by { SameLow(x.v, y.v); }
    case _ =>
  }

  lemma CreationShape(v: Vol, w: Vol, t: Tables, u: Tables, sb: SuperBlock, nr: nat, first: int, p: nat,
                      name: seq<byte>)
    requires FileCreated(v, w, t, u, sb, nr, first, p, name)
    ensures Shaped(v) && nr < NR_RECORDS && Shaped(Allocated(v, sb, nr, first))
  {
    hide FindNr;
  }

  lemma RemovalShape(v: Vol, sb: SuperBlock, nr: nat)
    requires DirShape(v) && InUse(v, nr) && nr != ROOT_INODE
    ensures DirShape(Freed(v, sb, nr)) && Freed(v, sb, nr).slots == v.slots && Entries(Freed(v, sb, nr)) == Entries(v)
  {
  }

  lemma RemoveLow(v: Vol, w: Vol, sb: SuperBlock, nr: word)
    requires Low(v) && Removes(v, w, sb, nr)
    ensures w.inodeMap <= v.inodeMap && Low(w)
  {
    hide FindNr, Used;
  }

  lemma SameLow(v: Vol, w: Vol)
    requires Low(v) && w.inodeMap == v.inodeMap
    ensures Low(w)
  {
  }

  lemma GridConsistent(v: Vol, sb: SuperBlock)
    requires OnGrid(v, sb)
    ensures Geometry(sb) && sb.n1stSect > 0
  {
  }

  lemma MovedOnGrid(x: State, c: Change, y: State, sb: SuperBlock)
    requires Sound(x, sb) && OnGrid(x.v, sb) && c.Moving? && By(x, c, y, sb)
    ensures OnGrid(y.v, sb)
  {
    hide Consistent, OnGrid, DescCounts, InodeCounts;
    var t := Tab(x);
    GrowsElsewhere(t, sb, c.s, c.moved);
    RootUsable(x.v, sb);
    var p := t.descs[t.filp[c.s].value].inode.value;
    if PosOf(t, c.s) + c.moved > Behind(t, c.s).size {
      SizedOnGrid(x.v, sb, t.inodes[p].num, PosOf(t, c.s) + c.moved);
    } else {
      assert y.v == x.v;
    }
  }

  ghost predicate LedUpTo(run: seq<State>, cs: seq<Change>, n: nat)
    requires n <= |cs| < |run|
  {
    forall i :: 0 <= i < n ==> Led(run[i], cs[i])
  }

  /** In every run that keeps cmd.tar, whatever names are created, all states are sound if and only if every path
      that is opened or refused leads to an i-node in use; then all extents stay on the grid, and a new file finds
      a number and sectors exactly while a cell below cmd.tar is free. */
  lemma {:induction false} RunExtents(run: seq<State>, cs: seq<Change>, sb: SuperBlock, n: nat)
    requires Run(run, cs, sb) && Sound(run[0], sb) && OnGrid(run[0].v, sb) && Low(run[0].v) && Gap(sb) && n <= |cs|
    requires forall i :: 0 <= i < n ==> KeepsBoot(run[i], cs[i])
    ensures SoundUpTo(run, sb, n) <==> LedUpTo(run, cs, n)
    ensures LedUpTo(run, cs, n) ==> SparesUpTo(run, cs, n) && OnGrid(run[n].v, sb) && Low(run[n].v)
    ensures LedUpTo(run, cs, n) ==> (CanAllocate(run[n].v, sb) <==> exists c :: FreeCell(run[n].v, sb, c))
  {
    hide Sound, By, SafelyNamed, Led, OnGrid, KeepsBoot, FirstFit, FreeCell, Full, Low;
    if n > 0 {
      RunExtents(run, cs, sb, n - 1);
      var x, c, y := run[n - 1], cs[n - 1], run[n];
      assert By(run[n - 1], cs[n - 1], run[n - 1 + 1], sb);
      assert SoundUpTo(run, sb, n) <==> SoundUpTo(run, sb, n - 1) && Sound(y, sb);
      assert LedUpTo(run, cs, n) <==> LedUpTo(run, cs, n - 1) && Led(x, c);
      if LedUpTo(run, cs, n - 1) {
        assert Sound(x, sb);
        GridSpares(x, c, y, sb);
        ChangeSoundIff(x, c, y, sb);
        if Led(x, c) { ChangeOnGrid(x, c, y, sb); }
      }
    }
    if LedUpTo(run, cs, n) {
      AllocIff(run[n].v, sb);
      NumbersLeft(run[n].v, sb);
    }
  }

  // ---------------------------------------------------------------- where runs begin

  /** `init_fs` (fs/main.c:103-129) on a device that suits it: `mkfs`, the layout read back from the super block,
      empty tables, and the root directory pinned. Every run begins here, sound, on the grid and with exact counts. */
  method InitFs(dev: Disk, nrSects: nat, stale: word) returns (ok: bool, fs: Server?)
    requires dev.Valid() && Suitable(dev, nrSects)
    modifies dev.data, dev.fsbuf
    ensures ok <==> INSTALL_START_SECT + INSTALL_NR_SECTS < nrSects - NR_SECTS_FOR_LOG
    ensures ok ==> fs != null && fresh(fs) && fs.dev == dev && fs.sb == LayoutOf(nrSects) && fs.Objects()
    ensures ok ==> Sound(StateOf(fs), fs.sb) && OnGrid(fs.V(), fs.sb) && Runs.Fresh(Tab(StateOf(fs)))
    ensures ok ==> Idle(StateOf(fs)) && MadeVol(fs.V(), fs.sb) && Begins(old(dev.data[..]), fs.V(), fs.sb)
  {
    hide OnGrid, MadeVol, VolAt, Inv, Splice, Agree, Begins, Super.Holds, Super.Fields, Super.Fits;
    ghost var d := dev.data[..];
    fs := null;
    var sb;
    ok, sb := Mkfs(dev, nrSects, stale);
    if ok {
      LayoutFacts(nrSects);
      MadeOnGrid(dev.data[..], sb);
      GridSound(VolAt(dev.data[..], sb), sb);
      MadeStart(d, dev.data[..], sb);
      var magic, layout := Super.ReadSuper(dev, sb, nrSects, stale);
      assert magic == Super.MAGIC_V1;
      fs := new Server(dev, layout);
    }
  }

  /** Nothing is open, and the file system itself holds the root directory only. */
  ghost predicate Idle(x: State) {
    && |x.filp| == NR_FILP && |x.held| == NR_INODE && (forall s :: 0 <= s < NR_FILP ==> x.filp[s] == None)
    && (forall p :: 0 <= p < NR_INODE ==> x.held[p] == Runs.Pin(p))
  }

  /** What `mkfs` leaves on a disk that held `d`: low numbers, few entries, and a directory that is a map, the one
      of the five names, if and only if the sectors of its extent behind the first were zero. */
  ghost predicate Begins(d: seq<byte>, v: Vol, sb: SuperBlock) {
    && OnDevice(sb, |d|) && Low(v) && Short(v) && (Cleared(d, sb) <==> DirOk(v.slots, Entries(v)))
    && (Cleared(d, sb) ==> Shows(v, BootNames()) && Numbered(v))
  }

  lemma MadeStart(d: seq<byte>, e: seq<byte>, sb: SuperBlock)
    requires OnDevice(sb, |d|) && |e| == |d| && Made(e, sb) && Consistent(VolAt(e, sb), sb)
    requires Agree(e, d, (sb.n1stSect + 1) * SECTOR_SIZE, |d|)
    ensures Begins(d, VolAt(e, sb), sb)
  {
    hide MadeVol, VolAt, Bits, Records, Slots, Consistent, DirOk, Bound, BootNames;
    var v := VolAt(e, sb);
    MadeDirOkIff(v, sb);
    ClearedIff(e, sb);
    ShapeOf(v, sb);
    assert Cleared(d, sb) <==> Cleared(e, sb);
    assert Low(v) by { MadeLow(v, sb); }
    if DirOk(v.slots, Entries(v)) { DirNumbered(v, sb); }
  }

  lemma MadeLow(v: Vol, sb: SuperBlock)
    requires MadeVol(v, sb)
    ensures Low(v)
  {
  }

  lemma DirNumbered(v: Vol, sb: SuperBlock)
    requires Consistent(v, sb) && DirOk(v.slots, Entries(v))
    ensures Numbered(v)
  {
    hide ExtentsOk, SmapExact;
    assert forall m :: Entries(v) <= m < DIR_SLOTS ==> v.slots[m] == EMPTY;
    assert forall m :: 0 <= m < Entries(v) && v.slots[m].nr != 0 ==> Live(v.slots[m]);
  }

  lemma GridSound(v: Vol, sb: SuperBlock)
    requires OnGrid(v, sb)
    ensures Consistent(v, sb)
  {
  }

  // ---------------------------------------------------------------- what the code takes for granted

  /** Every numbered slot of the directory's extent, behind the last entry too, names an i-node in use of its own. */
  ghost predicate Numbered(v: Vol) {
    && DirShape(v)
    && (forall m :: 0 <= m < DIR_SLOTS && v.slots[m].nr != 0 ==> InUse(v, v.slots[m].nr))
    && (forall m, k :: 0 <= m < k < DIR_SLOTS && v.slots[m].nr != 0 ==> v.slots[m].nr != v.slots[k].nr)
  }

  /** A new name clears the number of the next slot or leaves it. */
  predicate Mild(x: State, c: Change) {
    c.Creating? ==>
      Roomy(x.v) &&
      var at := Place(x.v.slots, Entries(x.v));
      Spills(at, c.name) && at + 1 < DIR_SLOTS ==> SpoiledNr(x.v) == 0 || SpoiledNr(x.v) == x.v.slots[at + 1].nr
  }

  lemma CreatedNumbered(v: Vol, w: Vol, t: Tables, u: Tables, sb: SuperBlock, nr: nat, first: int, p: nat,
                        name: seq<byte>)
    requires FileCreated(v, w, t, u, sb, nr, first, p, name) && Consistent(v, sb) && Numbered(v)
    requires var at := Place(v.slots, Entries(v));
      Spills(at, name) && at + 1 < DIR_SLOTS ==> SpoiledNr(v) == 0 || SpoiledNr(v) == v.slots[at + 1].nr
    ensures DirShape(w) ==> Numbered(w)
  {
    hide FindNr, Named, NameOver, Enter, ExtentsOk, SmapExact;
    NumberUnused(v, w, t, u, sb, nr, first, p, name);
    AllocatedSame(v, sb, nr, first);
    AllocatedNames(v, sb, nr, first);
    var a, at := Allocated(v, sb, nr, first), Place(v.slots, Entries(v));
    forall m | 0 <= m < DIR_SLOTS
      ensures |w.slots| == DIR_SLOTS && |w.recs| == NR_RECORDS && w.inodeMap == a.inodeMap
      ensures w.slots[m].nr == (if m == at then nr else if m == at + 1 && Spills(at, name)
        then SpoiledNr(v) else v.slots[m].nr)
    {
      NamedSlotAt(a, nr, name, m);
    }
    NamedSlotAt(a, nr, name, 0);
    assert forall n :: InUse(w, n) <==> InUse(v, n) || n == nr;
    assert !InUse(v, nr);
  }

  lemma UnlinkedNumbered(v: Vol, w: Vol, t: Tables, u: Tables, sb: SuperBlock, path: seq<byte>)
    requires Unlinked(v, w, t, u, sb, path) && Numbered(v)
    ensures DirShape(w) ==> Numbered(w)
  {
    hide FindNr, Used, Acquire, EntryFor, UnlinkGranted, PathInode, Runs.Step, Runs.Enabled, Runs.Refuses;
    var nr := PathInode(v, path);
    UnnamedSlots(v, Freed(v, sb, nr), w, sb, nr);
    assert w.inodeMap == v.inodeMap - {nr};
    assert forall n :: InUse(v, n) && n != nr ==> InUse(w, n);
    assert v.slots[FindNr(v.slots, nr)].nr == nr;
  }

  lemma ChangeNumbered(x: State, c: Change, y: State, sb: SuperBlock)
    requires Sound(x, sb) && By(x, c, y, sb) && Sound(y, sb) && Numbered(x.v) && Mild(x, c)
    ensures Numbered(y.v)
  {
    hide Inv, Consistent, RootPinned, Leads, Acquire, EntryFor, Connect, FindNr, FileCreated, Stripped,
         Unlinked, PathInode;
    hide Runs.Step, Runs.Enabled, Runs.Advance, Runs.Movable, Detached, OpenedOld, UnlinkRefused, Advanced;
    ShapeOf(y.v, sb);
    match c
    case Creating(path, s, f, flags, nr, first, p, name, m) =>
      CreatedNumbered(x.v, y.v, Tab(x), m, sb, nr, first, p, name);
    case Unlinking(path) => UnlinkedNumbered(x.v, y.v, Tab(x), Tab(y), sb, path);
    case _ =>
      assert y.v.slots == x.v.slots && y.v.inodeMap == x.v.inodeMap;
      assert forall n :: InUse(x.v, n) ==> InUse(y.v, n);
  }

  lemma ShapeOf(v: Vol, sb: SuperBlock)
    requires Consistent(v, sb)
    ensures DirShape(v)
  {
  }

  lemma NumberedLeads(v: Vol, path: seq<byte>)
    requires Numbered(v) && InUse(v, ROOT_INODE)
    ensures Leads(v, path)
  {
    hide FindName, Pad, Stripped;
  }

  lemma LowIsMild(x: State, c: Change, y: State, sb: SuperBlock)
    requires Numbered(x.v) && Low(x.v) && By(x, c, y, sb)
    ensures Mild(x, c)
  {
    hide Connect, FindNr, Stripped, Named, Allocated, PathInode, Leads;
    if c.Creating? {
      var at := Place(x.v.slots, Entries(x.v));
      if at + 1 < DIR_SLOTS {
        var k := x.v.slots[at + 1].nr;
        assert k != 0 ==> InUse(x.v, k);
        assert k < 0x100 && k / 0x100 * 0x100 == 0;
      }
    }
  }

  /** So in every run that keeps cmd.tar from a cleared directory, orderly or not, every path leads nowhere or to an
      i-node in use, and all states are sound. */
  lemma {:induction false} RunLeads(run: seq<State>, cs: seq<Change>, sb: SuperBlock, n: nat, path: seq<byte>)
    requires Run(run, cs, sb) && Sound(run[0], sb) && OnGrid(run[0].v, sb) && Low(run[0].v) && Gap(sb) && n <= |cs|
    requires (forall i :: 0 <= i < n ==> KeepsBoot(run[i], cs[i])) && Numbered(run[0].v)
    ensures Numbered(run[n].v) && Leads(run[n].v, path) && LedUpTo(run, cs, n) && SoundUpTo(run, sb, n)
  {
    hide By, OnGrid, KeepsBoot, Low, Mild, Leads, Numbered, Inv, RootPinned, ExtentsOk, SmapExact, NamesOk;
    if n > 0 {
      var x, c, y := run[n - 1], cs[n - 1], run[n];
      RunLeads(run, cs, sb, n - 1, path);
      RunExtents(run, cs, sb, n - 1);
      assert By(run[n - 1], cs[n - 1], run[n - 1 + 1], sb) && Sound(x, sb);
      LedNow(x, c, sb);
      RunExtents(run, cs, sb, n);
      assert Sound(y, sb);
      LowIsMild(x, c, y, sb);
      ChangeNumbered(x, c, y, sb);
    }
    assert Sound(run[n], sb);
    RootStays(run[n].v, sb);
    NumberedLeads(run[n].v, path);
  }

  lemma LedNow(x: State, c: Change, sb: SuperBlock)
    requires Sound(x, sb) && Numbered(x.v)
    ensures Led(x, c)
  {
    hide Inv, RootPinned, ExtentsOk, SmapExact, NamesOk, Leads, Numbered;
    RootStays(x.v, sb);
    match c
    case Opening(path, _, _, _, _) => NumberedLeads(x.v, path);
    case Refusing(path) => NumberedLeads(x.v, path);
    case _ =>
  }

  /** There are no more entries than i-node numbers. */
  predicate Short(v: Vol) { DirShape(v) && Entries(v) <= NR_RECORDS }

  ghost function NumbersOf(s: seq<Slot>, k: nat): set<int>
    requires k <= |s|
  {
    if k == 0 then {} else NumbersOf(s, k - 1) + {s[k - 1].nr as int}
  }

  /** Used slots with numbers of their own are as many as their numbers. */
  lemma {:induction false} NumbersCount(s: seq<Slot>, k: nat)
    requires k <= |s| && forall m, j :: 0 <= m < j < k ==> s[m].nr != s[j].nr
    requires forall m :: 0 <= m < k ==> 1 <= s[m].nr < NR_RECORDS
    ensures |NumbersOf(s, k)| == k && NumbersOf(s, k) <= Range(1, NR_RECORDS - 1)
  {
    hide Range;
    if k > 0 {
      NumbersCount(s, k - 1);
      NumberThere(s, k - 1, s[k - 1].nr);
    }
  }

  lemma {:induction false} NumberThere(s: seq<Slot>, k: nat, n: int)
    requires k <= |s| && forall m :: 0 <= m < k ==> s[m].nr != n
    ensures n !in NumbersOf(s, k)
  {
    if k > 0 { NumberThere(s, k - 1, n); }
  }

  /** When no slot is free, the entries are fewer than the numbers. */
  lemma FullIsShort(v: Vol)
    requires DirShape(v) && NamesOk(v) && FindNr(v.slots, 0) >= Entries(v)
    ensures Entries(v) < NR_RECORDS
  {
    var k := Entries(v);
    forall m | 0 <= m < k ensures 1 <= v.slots[m].nr < NR_RECORDS {
      assert v.slots[m].nr != 0;
      assert InUse(v, v.slots[m].nr);
    }
    NumbersCount(v.slots, k);
    Subset(NumbersOf(v.slots, k), Range(1, NR_RECORDS - 1));
    Card(1, NR_RECORDS - 1);
  }

  lemma ChangeShort(x: State, c: Change, y: State, sb: SuperBlock)
    requires Sound(x, sb) && By(x, c, y, sb) && Sound(y, sb) && Short(x.v)
    ensures Short(y.v)
  {
    hide Inv, RootPinned, Leads, Acquire, EntryFor, Connect, FindNr, Stripped, PathInode, UnlinkGranted;
    hide ImapOk, ExtentsOk, SmapExact, Runs.Step, Runs.Enabled, Runs.Advance, Runs.Movable, Detached, OpenedOld;
    hide UnlinkRefused, Advanced, Named, Allocated, Freed, Used;
    ShapeOf(y.v, sb);
    match c
    case Creating(path, s, f, flags, nr, first, p, name, m) =>
      NumberUnused(x.v, y.v, Tab(x), m, sb, nr, first, p, name);
      NamedSlots(x.v, y.v, sb, nr, first, name);
      if Place(x.v.slots, Entries(x.v)) == Entries(x.v) { FullIsShort(x.v); }
    case Unlinking(path) =>
      UnnamedSlots(x.v, Freed(x.v, sb, PathInode(x.v, path)), y.v, sb, PathInode(x.v, path));
    case Moving(s, moved) => MovedShort(x, c, y, sb);
    case _ =>
  }

  lemma MovedShort(x: State, c: Change, y: State, sb: SuperBlock)
    requires Sound(x, sb) && c.Moving? && By(x, c, y, sb) && Short(x.v) && DirShape(y.v)
    ensures Short(y.v)
  {
    hide Consistent, DescCounts, InodeCounts;
    GrowsElsewhere(Tab(x), sb, c.s, c.moved);
    assert Tab(y).recs == y.v.recs && Tab(x).recs == x.v.recs;
    assert Rec(y.v, ROOT_INODE) == Rec(x.v, ROOT_INODE);
  }

  /** So in every run whose states are all sound, the directory has room for another entry. */
  lemma {:induction false} RunRoomy(run: seq<State>, cs: seq<Change>, sb: SuperBlock, n: nat)
    requires Run(run, cs, sb) && Sound(run[0], sb) && Short(run[0].v) && n <= |cs| && SparesUpTo(run, cs, n)
    ensures Short(run[n].v) && Roomy(run[n].v) && Sound(run[n], sb)
  {
    hide By, Sound, Spares;
    RunSoundIff(run, cs, sb, n);
    assert Sound(run[n], sb);
    if n > 0 {
      RunRoomy(run, cs, sb, n - 1);
      assert By(run[n - 1], cs[n - 1], run[n - 1 + 1], sb);
      ChangeShort(run[n - 1], cs[n - 1], run[n], sb);
    }
  }

  /** And in every sound state an open regular file lies behind the directory. */
  lemma FilesAreTame(x: State, sb: SuperBlock, s: nat, len: nat, write: bool)
    requires Sound(x, sb) && UsedSlot(Tab(x), s) && Behind(Tab(x), s).mode == I_REGULAR
    ensures Tame(Tab(x), sb, s, len, write)
  {
    hide Targets, SmapExact, NamesOk;
    var t := Tab(x);
    SlotCounts(t, s);
    BehindRoot(x.v, sb, t.inodes[t.descs[t.filp[s].value].inode.value].num);
  }

  lemma BehindRoot(v: Vol, sb: SuperBlock, n: nat)
    requires ImapOk(v, sb) && ExtentsOk(v, sb) && n in v.inodeMap && n != 0 && Rec(v, n).mode == I_REGULAR
    ensures sb.n1stSect + NR_DEFAULT_FILE_SECTS <= Rec(v, n).startSect
  {
    var root, b := Rec(v, ROOT_INODE), FirstBit(sb, Rec(v, n));
    assert InUse(v, n) && InUse(v, ROOT_INODE) && n != ROOT_INODE;
    assert InExtent(sb, Rec(v, n), b);
    assert !InExtent(sb, root, b);
  }
}
