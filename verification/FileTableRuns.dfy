/** Whole runs of requests on the tables of the file system task: after every run the reference counts are
    exact, unless an unlink was refused, which keeps a reference for good. */
module FileTableRuns {
  import opened Const
  import opened Words
  import opened Inodes
  import opened FileTable

  datatype Request =
    | Open(num: nat, s: nat, f: nat, flags: int)
    | Create(num: nat, rec: Inode, size: word, s: nat, f: nat, flags: int)  // the directory grows to `size`
    | Close(s: nat)
    | Fork(parent: nat, child: nat)
    | Exit(pid: nat)
    | Stat(num: nat)
    | Unlink(num: nat, shrunk: Option<word>)  // the directory shrinks, if it does, to `shrunk`
    | Move(s: nat, moved: nat)              // bytes have been read or written

  function At(pid: nat, i: nat): nat { pid * NR_FILES + i }

  predicate FreePair(t: Tables, s: nat, f: nat) {
    s < |t.filp| && t.filp[s] == None && f < |t.descs| && t.descs[f].inode.None?
  }

  predicate Held(t: Tables, num: nat) { 1 <= num <= |t.recs| && num in t.live && EntryFor(t.inodes, num) < |t.inodes| }

  predicate Used(t: Tables, s: nat) {
    && s < |t.filp| && t.filp[s].Some? && t.filp[s].value < |t.descs| && t.descs[t.filp[s].value].inode.Some?
    && t.descs[t.filp[s].value].inode.value < |t.inodes|
  }

  predicate Movable(t: Tables, s: nat, moved: nat) {
    && Used(t, s) && 0 <= t.descs[t.filp[s].value].pos && t.descs[t.filp[s].value].pos + moved < WORD
    && 1 <= t.inodes[t.descs[t.filp[s].value].inode.value].num <= |t.recs|
  }

  /** The root directory is pinned in the first entry. */
  predicate Rooted(t: Tables) {
    0 < |t.held| == |t.inodes| && t.held[0] > 0 && 1 <= t.inodes[0].num <= |t.recs|
  }

  /** The request is served: the i-node exists and there is an entry for it, the slots are free or used as
      they must be. */
  predicate Enabled(t: Tables, r: Request) {
    && |t.inodes| == |t.held| == NR_INODE && |t.filp| == NR_FILP && |t.descs| == NR_FILE_DESC
    && match r
       case Open(num, s, f, flags) => Held(t, num) && FreePair(t, s, f)
       case Create(num, rec, size, s, f, flags) =>
         1 <= num <= |t.recs| && num !in t.live && FreeFrom(t.inodes, 0) < NR_INODE && FreePair(t, s, f) && Rooted(t)
       case Close(s) => Used(t, s)
       case Fork(parent, child) =>
         parent < NR_SLOTS && child < NR_SLOTS && parent != child
         && forall i :: 0 <= i < NR_FILES ==> t.filp[At(child, i)] == None
       case Exit(pid) => pid < NR_SLOTS
       case Stat(num) => 1 <= num <= |t.recs| && EntryFor(t.inodes, num) < |t.inodes|
       case Unlink(num, shrunk) => Held(t, num) && Rooted(t)
       case Move(s, moved) => Movable(t, s, moved)
  }

  /** `do_unlink` refuses: the file is not regular, or there are other references (fs/link.c:39-46). */
  predicate Refuses(t: Tables, num: nat)
    requires |t.inodes| == |t.held| && Held(t, num)
  {
    var e := Acquire(t, num).inodes[EntryFor(t.inodes, num)];
    e.rec.mode != I_REGULAR || e.cnt > 1
  }

  function Created(t: Tables, num: nat, rec: Inode): Tables
    requires |t.inodes| == |t.held| && 1 <= num <= |t.recs| && FreeFrom(t.inodes, 0) < |t.inodes|
  {
    TakeEntry(t.(live := t.live + {num}), FreeFrom(t.inodes, 0), rec, num)
  }

  /** The directory gets another size, in memory and on disk. */
  function Resize(t: Tables, size: Option<word>): Tables
    requires |t.inodes| > 0 && 1 <= t.inodes[0].num <= |t.recs|
  {
    if size.Some? then Sync(t, 0, t.inodes[0].rec.(size := size.value)) else t
  }

  /** The position grows by what was moved, and the size of the file with it (fs/read_write.c:83-90). */
  function Advance(t: Tables, s: nat, moved: nat): Tables
    requires Movable(t, s, moved)
  {
    var f := t.filp[s].value;
    var p, pos := t.descs[f].inode.value, t.descs[f].pos + moved;
    if pos > t.inodes[p].rec.size then Sync(AtPos(t, f, pos), p, t.inodes[p].rec.(size := pos)) else AtPos(t, f, pos)
  }

  /** The slots of the parent from the `i`-th on, given to the child. */
  ghost function AttachFrom(t: Tables, parent: nat, child: nat, i: nat): Tables
    requires parent < NR_SLOTS && child < NR_SLOTS && i <= NR_FILES && |t.filp| == NR_FILP
    decreases NR_FILES - i
  {
    if i == NR_FILES then t
    else if Used(t, At(parent, i)) then
      AttachFrom(Attach(t, At(child, i), t.filp[At(parent, i)].value), parent, child, i + 1)
    else AttachFrom(t, parent, child, i + 1)
  }

  predicate Droppable(t: Tables, s: nat) {
    Used(t, s) && t.descs[t.filp[s].value].cnt > 0 && t.inodes[t.descs[t.filp[s].value].inode.value].cnt > 0
  }

  ghost function DetachFrom(t: Tables, pid: nat, i: nat): Tables
    requires pid < NR_SLOTS && i <= NR_FILES && |t.filp| == NR_FILP
    decreases NR_FILES - i
  {
    if i == NR_FILES then t
    else if Droppable(t, At(pid, i)) then DetachFrom(Detach(t, At(pid, i)), pid, i + 1)
    else DetachFrom(t, pid, i + 1)
  }

  /** What serving the request does (a used slot can always be given up, see `SlotCounts`). */
  ghost function Step(t: Tables, r: Request): Tables
    requires Enabled(t, r)
  {
    match r
    case Open(num, s, f, flags) => Connect(Acquire(t, num), s, f, EntryFor(t.inodes, num), flags)
    case Create(num, rec, size, s, f, flags) =>
      Connect(Resize(Created(t, num, rec), Some(size)), s, f, FreeFrom(t.inodes, 0), flags)
    case Close(s) => if Droppable(t, s) then Detach(t, s) else t
    case Fork(parent, child) => AttachFrom(t, parent, child, 0)
    case Exit(pid) => DetachFrom(t, pid, 0)
    case Stat(num) =>
      var p := EntryFor(t.inodes, num);
      if Acquire(t, num).inodes[p].cnt > 0 then Release(Acquire(t, num), p) else t
    case Unlink(num, shrunk) =>
      if Refuses(t, num) then Acquire(t, num) else Resize(Wiped(Acquire(t, num), EntryFor(t.inodes, num), num), shrunk)
    case Move(s, moved) => Advance(t, s, moved)
  }

  lemma CreatedKeeps(t: Tables, num: nat, rec: Inode)
    requires Inv(t) && 1 <= num <= |t.recs| && num !in t.live && FreeFrom(t.inodes, 0) < NR_INODE
    ensures Inv(Created(t, num, rec))
  {
    hide FreeFrom, Targets, InodeCounts, CacheOk, DescCounts;
    CreatedCounts(t, num, rec);
    CreatedCache(t, num, rec);
  }

  lemma CreatedCounts(t: Tables, num: nat, rec: Inode)
    requires Shape(t) && DescCounts(t) && InodeCounts(t) && 1 <= num <= |t.recs| && FreeFrom(t.inodes, 0) < NR_INODE
    ensures DescCounts(Created(t, num, rec)) && InodeCounts(Created(t, num, rec))
  {
    hide FreeFrom, Targets;
  }

  lemma CreatedCache(t: Tables, num: nat, rec: Inode)
    requires Shape(t) && CacheOk(t) && 1 <= num <= |t.recs| && num !in t.live && FreeFrom(t.inodes, 0) < NR_INODE
    ensures CacheOk(Created(t, num, rec))
  {
    hide FreeFrom;
  }

  lemma {:induction false} AttachFromKeeps(t: Tables, parent: nat, child: nat, i: nat)
    requires Inv(t) && parent < NR_SLOTS && child < NR_SLOTS && parent != child && i <= NR_FILES
    requires |t.filp| == NR_FILP && forall k :: i <= k < NR_FILES ==> t.filp[At(child, k)] == None
    ensures Inv(AttachFrom(t, parent, child, i)) && AttachFrom(t, parent, child, i).held == t.held
    decreases NR_FILES - i
  {
    hide Inv;
    if i < NR_FILES {
      if Used(t, At(parent, i)) {
        var f := t.filp[At(parent, i)].value;
        AttachNext(t, child, i, f);
        AttachFromKeeps(Attach(t, At(child, i), f), parent, child, i + 1);
      } else {
        AttachFromKeeps(t, parent, child, i + 1);
      }
    }
  }

  lemma AttachNext(t: Tables, child: nat, i: nat, f: nat)
    requires Inv(t) && child < NR_SLOTS && i < NR_FILES && |t.filp| == NR_FILP && t.filp[At(child, i)] == None
    requires f < |t.descs| && t.descs[f].inode.Some? && t.descs[f].inode.value < |t.inodes|
    ensures var u := Attach(t, At(child, i), f);
      Inv(u) && u.held == t.held && |u.filp| == NR_FILP
      && forall k :: i < k < NR_FILES ==> u.filp[At(child, k)] == t.filp[At(child, k)]
  {
    assert f < NR_FILE_DESC by { Sizes(t); }
    hide Inv;
    AttachKeeps(t, At(child, i), f);
  }

  lemma Sizes(t: Tables)
    requires Inv(t)
    ensures |t.inodes| == NR_INODE == |t.held| && |t.descs| == NR_FILE_DESC && |t.filp| == NR_FILP
  {
  }

  lemma {:induction false} DetachFromKeeps(t: Tables, pid: nat, i: nat)
    requires Inv(t) && pid < NR_SLOTS && i <= NR_FILES && |t.filp| == NR_FILP
    ensures Inv(DetachFrom(t, pid, i)) && DetachFrom(t, pid, i).held == t.held
    decreases NR_FILES - i
  {
    hide Inv;
    if i < NR_FILES {
      if Droppable(t, At(pid, i)) {
        DetachKeeps(t, At(pid, i));
        DetachFromKeeps(Detach(t, At(pid, i)), pid, i + 1);
      } else {
        DetachFromKeeps(t, pid, i + 1);
      }
    }
  }

  /** One slot of an exit. */
  lemma DetachOne(t: Tables, pid: nat, i: nat)
    requires Inv(t) && pid < NR_SLOTS && i < NR_FILES && |t.filp| == NR_FILP
    ensures if t.filp[At(pid, i)].Some?
      then Droppable(t, At(pid, i)) && DetachFrom(t, pid, i) == DetachFrom(Detach(t, At(pid, i)), pid, i + 1)
      else DetachFrom(t, pid, i) == DetachFrom(t, pid, i + 1)
  {
    hide CacheOk, Targets;
    if t.filp[At(pid, i)].Some? { SlotCounts(t, At(pid, i)); }
  }

  /** One slot of a fork. */
  lemma AttachOne(t: Tables, parent: nat, child: nat, i: nat)
    requires parent < NR_SLOTS && child < NR_SLOTS && i < NR_FILES && |t.filp| == NR_FILP
    ensures AttachFrom(t, parent, child, i) ==
      if Used(t, At(parent, i)) then
        AttachFrom(Attach(t, At(child, i), t.filp[At(parent, i)].value), parent, child, i + 1)
      else AttachFrom(t, parent, child, i + 1)
  {
  }

  /** The references that a request leaves behind: one, if it is an unlink that is refused. */
  ghost function Left(t: Tables, r: Request, p: int): nat
    requires Enabled(t, r)
  {
    if r.Unlink? && Refuses(t, r.num) && p == EntryFor(t.inodes, r.num) then 1 else 0
  }

  lemma BackAgain(s: seq<nat>, p: nat)
    requires p < |s|
    ensures s[p := s[p] + 1][p := s[p]] == s
  {
  }

  /** What `StepKeeps` says of one request. */
  ghost predicate Kept(t: Tables, r: Request)
    requires Enabled(t, r)
  {
    && Inv(Step(t, r)) && |Step(t, r).held| == |t.held|
    && forall p :: 0 <= p < |t.held| ==> Step(t, r).held[p] == t.held[p] + Left(t, r, p)
  }

  lemma OpenKept(t: Tables, r: Request)
    requires Inv(t) && r.Open? && Enabled(t, r)
    ensures Kept(t, r)
  {
    hide Inv, CachedFrom, FreeFrom, EntryFor;
    AcquireKeeps(t, r.num);
    ConnectKeeps(Acquire(t, r.num), r.s, r.f, EntryFor(t.inodes, r.num), r.flags);
    BackAgain(t.held, EntryFor(t.inodes, r.num));
  }

  lemma CreateKept(t: Tables, r: Request)
    requires Inv(t) && r.Create? && Enabled(t, r)
    ensures Kept(t, r)
  {
    hide Inv, CachedFrom, FreeFrom;
    var u := Created(t, r.num, r.rec);
    CreatedKeeps(t, r.num, r.rec);
    CreatedRoot(t, r.num, r.rec);
    ResizeKeeps(u, Some(r.size));
    ConnectKeeps(Resize(u, Some(r.size)), r.s, r.f, FreeFrom(t.inodes, 0), r.flags);
    BackAgain(t.held, FreeFrom(t.inodes, 0));
  }

  lemma UnlinkKept(t: Tables, r: Request)
    requires Inv(t) && r.Unlink? && Enabled(t, r)
    ensures Kept(t, r)
  {
    hide Inv, CachedFrom, FreeFrom, EntryFor;
    AcquireKeeps(t, r.num);
    if !Refuses(t, r.num) {
      NotTheRoot(t, r.num);
      WipeKeeps(Acquire(t, r.num), EntryFor(t.inodes, r.num), r.num);
      BackAgain(t.held, EntryFor(t.inodes, r.num));
      ResizeKeeps(Wiped(Acquire(t, r.num), EntryFor(t.inodes, r.num), r.num), r.shrunk);
    }
  }

  lemma StatKept(t: Tables, r: Request)
    requires Inv(t) && r.Stat? && Enabled(t, r)
    ensures Kept(t, r)
  {
    hide Inv, CachedFrom, FreeFrom, EntryFor;
    LookKeeps(t, r.num);
    BackAgain(t.held, EntryFor(t.inodes, r.num));
  }

  /** Every request keeps the counts exact, up to the references held elsewhere. */
  lemma StepKeeps(t: Tables, r: Request)
    requires Inv(t) && Enabled(t, r)
    ensures Inv(Step(t, r)) && |Step(t, r).held| == |t.held|
    ensures forall p :: 0 <= p < |t.held| ==> Step(t, r).held[p] == t.held[p] + Left(t, r, p)
  {
    hide Inv, CachedFrom, FreeFrom, EntryFor, Acquire, Connect, Wiped, Resize, Release, Created, Advance,
         AttachFrom, DetachFrom;
    match r
    case Open(_, _, _, _) => OpenKept(t, r);
    case Create(_, _, _, _, _, _) => CreateKept(t, r);
    case Close(s) => if Droppable(t, s) { DetachKeeps(t, s); }
    case Fork(parent, child) => AttachFromKeeps(t, parent, child, 0);
    case Exit(pid) => DetachFromKeeps(t, pid, 0);
    case Stat(_) => StatKept(t, r);
    case Unlink(_, _) => UnlinkKept(t, r);
    case Move(s, moved) => AdvanceKeeps(t, s, moved);
  }

  lemma ResizeKeeps(t: Tables, size: Option<word>)
    requires Inv(t) && Rooted(t)
    ensures Inv(Resize(t, size)) && Rooted(Resize(t, size))
  {
    hide CacheOk, Targets, Sync;
    HeldInUse(t, 0);
    if size.Some? { SyncKeeps(t, 0, t.inodes[0].rec.(size := size.value)); }
    SyncFrame(t, 0, t.inodes[0].rec.(size := if size.Some? then size.value else 0));
  }

  lemma SyncFrame(t: Tables, p: nat, rec: Inode)
    requires p < |t.inodes| && 1 <= t.inodes[p].num <= |t.recs|
    ensures var u := Sync(t, p, rec);
      && u.held == t.held && u.live == t.live && u.filp == t.filp && u.descs == t.descs && |u.recs| == |t.recs|
      && |u.inodes| == |t.inodes| && forall q :: 0 <= q < |t.inodes| ==>
           u.inodes[q].num == t.inodes[q].num && u.inodes[q].cnt == t.inodes[q].cnt
  {
  }

  lemma HeldInUse(t: Tables, p: nat)
    requires Inv(t) && p < NR_INODE && t.held[p] > 0
    ensures t.inodes[p].cnt > 0
  {
    hide Targets;
  }

  lemma CreatedRoot(t: Tables, num: nat, rec: Inode)
    requires Inv(t) && Rooted(t) && 1 <= num <= |t.recs| && FreeFrom(t.inodes, 0) < NR_INODE
    ensures Rooted(Created(t, num, rec)) && Created(t, num, rec).inodes[0] == t.inodes[0]
  {
    hide FreeFrom;
    HeldInUse(t, 0);
  }

  /** An unlink that is granted is not of the pinned entry. */
  lemma NotTheRoot(t: Tables, num: nat)
    requires Inv(t) && Held(t, num) && Rooted(t) && !Refuses(t, num) && Inv(Acquire(t, num))
    ensures EntryFor(t.inodes, num) != 0 && Rooted(Acquire(t, num))
  {
    hide CacheOk, Targets, CachedFrom, FreeFrom;
    HeldInUse(t, 0);
    assert InodeCounts(Acquire(t, num));
  }

  lemma AdvanceKeeps(t: Tables, s: nat, moved: nat)
    requires Inv(t) && Movable(t, s, moved)
    ensures Inv(Advance(t, s, moved)) && Advance(t, s, moved).held == t.held
  {
    hide CacheOk, Targets;
    UsedInUse(t, s);
    var f := t.filp[s].value;
    var p, pos := t.descs[f].inode.value, t.descs[f].pos + moved;
    PositionKeeps(t, f, pos);
    if pos > t.inodes[p].rec.size { SyncKeeps(AtPos(t, f, pos), p, t.inodes[p].rec.(size := pos)); }
  }

  lemma UsedInUse(t: Tables, s: nat)
    requires Inv(t) && Used(t, s)
    ensures t.inodes[t.descs[t.filp[s].value].inode.value].cnt > 0
  {
    SlotCounts(t, s);
  }

  /** An entry that the file system holds keeps its i-node. */
  predicate SameNumber(t: Tables, u: Tables,
                       p: nat) { p < |t.inodes| == |u.inodes| && u.inodes[p].num == t.inodes[p].num }

  lemma {:induction false} AttachFromNumber(t: Tables, parent: nat, child: nat, i: nat, p: nat)
    requires parent < NR_SLOTS && child < NR_SLOTS && i <= NR_FILES && |t.filp| == NR_FILP && p < |t.inodes|
    ensures SameNumber(t, AttachFrom(t, parent, child, i), p)
    decreases NR_FILES - i
  {
    if i < NR_FILES {
      if Used(t, At(parent, i)) {
        AttachFromNumber(Attach(t, At(child, i), t.filp[At(parent, i)].value), parent, child, i + 1, p);
      } else {
        AttachFromNumber(t, parent, child, i + 1, p);
      }
    }
  }

  lemma {:induction false} DetachFromNumber(t: Tables, pid: nat, i: nat, p: nat)
    requires pid < NR_SLOTS && i <= NR_FILES && |t.filp| == NR_FILP && p < |t.inodes|
    ensures SameNumber(t, DetachFrom(t, pid, i), p)
    decreases NR_FILES - i
  {
    if i < NR_FILES {
      if Droppable(t, At(pid, i)) {
        DetachFromNumber(Detach(t, At(pid, i)), pid, i + 1, p);
      } else {
        DetachFromNumber(t, pid, i + 1, p);
      }
    }
  }

  lemma AcquireNumber(t: Tables, num: nat, p: nat)
    requires |t.inodes| == |t.held| && 1 <= num <= |t.recs| && EntryFor(t.inodes, num) < |t.inodes|
      && p < |t.inodes| && t.inodes[p].cnt > 0
    ensures SameNumber(t, Acquire(t, num), p)
  {
    hide CachedFrom, FreeFrom;
  }

  lemma CreatedNumber(t: Tables, num: nat, rec: Inode, p: nat)
    requires |t.inodes| == |t.held| && 1 <= num <= |t.recs| && FreeFrom(t.inodes, 0) < |t.inodes|
      && p < |t.inodes| && t.inodes[p].cnt > 0
    ensures SameNumber(t, Created(t, num, rec), p)
  {
    hide FreeFrom;
  }

  lemma ResizeNumber(t: Tables, size: Option<word>, p: nat)
    requires |t.inodes| > 0 && 1 <= t.inodes[0].num <= |t.recs| && p < |t.inodes|
    ensures SameNumber(t, Resize(t, size), p)
  {
  }

  lemma UnlinkNumber(t: Tables, r: Request, p: nat)
    requires Inv(t) && r.Unlink? && Enabled(t, r) && p < NR_INODE && t.held[p] > 0
    ensures SameNumber(t, Step(t, r), p)
  {
    hide Inv, EntryFor, FreeFrom, Resize;
    HeldInUse(t, p);
    AcquireNumber(t, r.num, p);
    AcquireKeeps(t, r.num);
    if !Refuses(t, r.num) {
      NotTheRoot(t, r.num);
      var w := Wiped(Acquire(t, r.num), EntryFor(t.inodes, r.num), r.num);
      ResizeNumber(w, r.shrunk, p);
    }
  }

  lemma StepNumber(t: Tables, r: Request, p: nat)
    requires Inv(t) && Enabled(t, r) && p < NR_INODE && t.held[p] > 0
    ensures SameNumber(t, Step(t, r), p)
  {
    hide Inv, EntryFor, FreeFrom, AttachFrom, DetachFrom, Acquire, Resize, Created;
    HeldInUse(t, p);
    match r
    case Open(num, _, _, _) => AcquireNumber(t, num, p);
    case Create(num, rec, size, _, _, _) =>
      CreatedNumber(t, num, rec, p);
      CreatedRoot(t, num, rec);
      ResizeNumber(Created(t, num, rec), Some(size), p);
    case Fork(parent, child) => AttachFromNumber(t, parent, child, 0, p);
    case Exit(pid) => DetachFromNumber(t, pid, 0, p);
    case Stat(num) => AcquireNumber(t, num, p);
    case Unlink(_, _) => UnlinkNumber(t, r, p);
    case Close(s) =>
    case Move(s, moved) =>
  }

  // ---------------------------------------------------------------- runs

  ghost predicate Run(run: seq<Tables>, rs: seq<Request>) {
    |run| == |rs| + 1 && forall i :: 0 <= i < |rs| ==> Enabled(run[i], rs[i]) && run[i + 1] == Step(run[i], rs[i])
  }

  /** `init_fs` has pinned the root directory, and nothing is open. */
  ghost predicate Fresh(t: Tables) {
    Inv(t) && forall p :: 0 <= p < NR_INODE ==> t.held[p] == Pin(p)
  }

  function Pin(p: int): nat { if p == 0 then 1 else 0 }

  /** `i_cnt` is the number of slots that reach the i-node, and one more for the root directory. */
  ghost predicate Exact(t: Tables) {
    forall p :: 0 <= p < |t.inodes| ==> t.inodes[p].cnt == multiset(Targets(t.filp, t.descs))[Some(p)] + Pin(p)
  }

  ghost predicate RefusedAt(run: seq<Tables>, rs: seq<Request>, i: int)
    requires Run(run, rs) && 0 <= i < |rs|
  {
    rs[i].Unlink? && Refuses(run[i], rs[i].num)
  }

  /** The file system itself holds the root directory and nothing else. */
  ghost predicate Pinned(t: Tables) { |t.held| == NR_INODE && forall p :: 0 <= p < NR_INODE ==> t.held[p] == Pin(p) }

  ghost predicate AtLeastPinned(t: Tables) {
    |t.held| == NR_INODE && forall p :: 0 <= p < NR_INODE ==> t.held[p] >= Pin(p)
  }

  ghost predicate NoneRefused(run: seq<Tables>, rs: seq<Request>, n: nat)
    requires Run(run, rs) && n <= |rs|
  {
    forall i :: 0 <= i < n ==> !RefusedAt(run, rs, i)
  }

  lemma {:induction false} RunHeld(run: seq<Tables>, rs: seq<Request>, n: nat)
    requires Run(run, rs) && Fresh(run[0]) && n <= |rs|
    ensures Inv(run[n]) && AtLeastPinned(run[n]) && (Pinned(run[n]) <==> NoneRefused(run, rs, n))
  {
    hide Inv, Step, Refuses, Held, Pinned, AtLeastPinned;
    if n == 0 {
      FreshPinned(run[0]);
    } else {
      RunHeld(run, rs, n - 1);
      var t, r := run[n - 1], rs[n - 1];
      assert Enabled(t, r) && run[n - 1 + 1] == Step(t, r);
      StepHeld(t, r);
      assert RefusedAt(run, rs, n - 1) <==> r.Unlink? && Refuses(t, r.num);
      assert NoneRefused(run, rs, n) <==> NoneRefused(run, rs, n - 1) && !RefusedAt(run, rs, n - 1);
    }
  }

  /** A reference that the file system holds is never given up: its entry keeps it, and its i-node. */
  lemma {:induction false} StaysHeld(run: seq<Tables>, rs: seq<Request>, i: nat, n: nat, p: nat)
    requires Run(run, rs) && i <= n <= |rs| && Inv(run[i]) && p < NR_INODE && run[i].held[p] > 0
    ensures Inv(run[n]) && run[n].held[p] > 0 && SameNumber(run[i], run[n], p)
    decreases n - i
  {
    hide Inv, Step, Enabled;
    if i < n {
      StaysHeld(run, rs, i, n - 1, p);
      var t, r := run[n - 1], rs[n - 1];
      assert Enabled(t, r) && run[n - 1 + 1] == Step(t, r);
      Sizes(t);
      StepKeeps(t, r);
      StepNumber(t, r, p);
    } else {
      Sizes(run[i]);
    }
  }

  /** The entry of a refused unlink is held from then on. */
  lemma RefusalHeld(run: seq<Tables>, rs: seq<Request>, i: nat, n: nat) returns (p: nat)
    requires Run(run, rs) && i < n <= |rs| && Inv(run[i]) && RefusedAt(run, rs, i)
    ensures p < NR_INODE && Inv(run[n]) && |run[n].held| == NR_INODE == |run[n].inodes|
    ensures run[n].held[p] > 0 && run[n].inodes[p].num == rs[i].num
  {
    hide Inv, EntryFor;
    var t, r := run[i], rs[i];
    assert Enabled(t, r) && run[i + 1] == Step(t, r);
    p := EntryFor(t.inodes, r.num);
    AcquireKeeps(t, r.num);
    assert run[i + 1].held[p] > 0 && run[i + 1].inodes[p].num == r.num;
    StaysHeld(run, rs, i + 1, n, p);
    Sizes(run[n]);
  }

  lemma FreshPinned(t: Tables)
    requires Fresh(t)
    ensures Pinned(t) && AtLeastPinned(t)
  {
    Sizes(t);
  }

  lemma StepHeld(t: Tables, r: Request)
    requires Inv(t) && Enabled(t, r) && AtLeastPinned(t)
    ensures Inv(Step(t, r)) && AtLeastPinned(Step(t, r))
    ensures Pinned(Step(t, r)) <==> Pinned(t) && !(r.Unlink? && Refuses(t, r.num))
  {
    hide Inv, Step, Refuses, EntryFor;
    var u := Step(t, r);
    StepKeeps(t, r);
    if r.Unlink? && Refuses(t, r.num) {
      LeftOne(t, r);
    } else {
      assert forall p :: 0 <= p < NR_INODE ==> u.held[p] == t.held[p];
    }
  }

  lemma LeftOne(t: Tables, r: Request)
    requires Enabled(t, r) && r.Unlink? && Refuses(t, r.num)
    ensures 0 <= EntryFor(t.inodes, r.num) < NR_INODE && Left(t, r, EntryFor(t.inodes, r.num)) == 1
  {
  }

  /** After every run the counts are exact if and only if no unlink was refused. */
  lemma RunExactIff(run: seq<Tables>, rs: seq<Request>)
    requires Run(run, rs) && Fresh(run[0])
    ensures Exact(run[|rs|]) <==> NoneRefused(run, rs, |rs|)
    ensures DescCounts(run[|rs|]) && CacheOk(run[|rs|])
  {
    RunHeld(run, rs, |rs|);
    ExactIsPinned(run[|rs|]);
  }

  lemma ExactIsPinned(t: Tables)
    requires Inv(t)
    ensures Exact(t) <==> Pinned(t)
  {
    hide Targets;
    if Exact(t) {
      forall p | 0 <= p < NR_INODE ensures t.held[p] == Pin(p) {
        assert t.inodes[p].cnt == multiset(Targets(t.filp, t.descs))[Some(p)] + t.held[p];
      }
    }
  }
}
