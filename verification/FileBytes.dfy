/** The contents of files over whole runs of the file system task. Extents are disjoint, so that a file holds what its
    own writes have put there, as long as no write runs over the end of its extent; one that does lands in the file
    behind. */
module FileBytes {
  import opened Const
  import opened BlockDevice
  import opened SectorMap
  import opened Inodes
  import opened Directory
  import opened FileTable
  import opened Volume
  import opened VolumeDisk
  import opened FileSystem
  import opened FileSystemRuns

  /** A run, the disk before and after each turn, and the bytes that each turn writes. */
  ghost predicate DataRun(run: seq<State>, cs: seq<Change>, ds: seq<seq<byte>>, ws: seq<seq<byte>>, sb: SuperBlock) {
    && FileSystemRuns.Run(run, cs, sb) && |ds| == |run| && |ws| == |cs|
    && forall i :: 0 <= i < |cs| ==> Carries(run[i], cs[i], ds[i], ds[i + 1], ws[i], sb)
  }

  predicate OnDisk(d: seq<byte>, x: Inode) { (x.startSect + x.nrSects) * SECTOR_SIZE <= |d| }

  /** The bytes of the extent. */
  function Content(d: seq<byte>, x: Inode): (b: seq<byte>)
    requires OnDisk(d, x)
    ensures |b| == x.nrSects * SECTOR_SIZE
  {
    d[x.startSect * SECTOR_SIZE..(x.startSect + x.nrSects) * SECTOR_SIZE]
  }

  predicate SameExtent(x: Inode, y: Inode) { x.startSect == y.startSect && x.nrSects == y.nrSects && x.mode == y.mode }

  /** The i-node behind a used slot. */
  function NumberOf(t: Tables, s: nat): nat
    requires UsedSlot(t, s)
  {
    t.inodes[t.descs[t.filp[s].value].inode.value].num
  }

  /** The turn writes `w` to i-node `n`. */
  ghost predicate Writes(x: State, c: Change, w: seq<byte>, n: nat) {
    w != [] && c.Moving? && UsedSlot(Tab(x), c.s) && NumberOf(Tab(x), c.s) == n
  }

  /** What a turn writes ends within the extent of its file. */
  ghost predicate Contained(x: State, c: Change, w: seq<byte>) {
    w != [] && c.Moving? && UsedSlot(Tab(x), c.s) ==>
      PosOf(Tab(x), c.s) + |w| <= Behind(Tab(x), c.s).nrSects * SECTOR_SIZE
  }

  /** The contents `b` of i-node `n` after the turn. */
  ghost function After(b: seq<byte>, x: State, c: Change, w: seq<byte>, n: nat): (r: seq<byte>)
    ensures |r| == |b|
  {
    if Writes(x, c, w, n) && PosOf(Tab(x), c.s) + |w| <= |b| then Splice(b, PosOf(Tab(x), c.s), w) else b
  }

  /** And after the first `k` turns: its own writes, in their order and at their positions. */
  ghost function Replay(b: seq<byte>, run: seq<State>, cs: seq<Change>, ws: seq<seq<byte>>, n: nat,
                        k: nat): (r: seq<byte>)
    requires k <= |cs| < |run| && |ws| == |cs|
    ensures |r| == |b|
  {
    if k == 0 then b else After(Replay(b, run, cs, ws, n, k - 1), run[k - 1], cs[k - 1], ws[k - 1], n)
  }

  // ---------------------------------------------------------------- one turn

  /** A slot leads to the record of an i-node in use. */
  lemma SlotRecord(x: State, sb: SuperBlock, s: nat)
    requires Sound(x, sb) && UsedSlot(Tab(x), s)
    ensures InUse(x.v, NumberOf(Tab(x), s)) && Rec(x.v, NumberOf(Tab(x), s)) == Behind(Tab(x), s)
  {
    hide Targets, ExtentsOk, SmapExact, NamesOk;
    SlotCounts(Tab(x), s);
  }

  /** As long as an i-node stays in use, its extent stays where it is. */
  lemma ExtentStays(x: State, c: Change, y: State, sb: SuperBlock, n: nat)
    requires Sound(x, sb) && By(x, c, y, sb) && InUse(x.v, n) && InUse(y.v, n) && n != ROOT_INODE
    ensures SameExtent(Rec(y.v, n), Rec(x.v, n))
  {
    hide Inv, ExtentsOk, SmapExact, NamesOk, RootPinned, PathInode, Leads, Acquire, EntryFor, Connect, Stripped, FindNr,
         Enter, Runs.Step, Runs.Enabled, Detached, OpenedOld, UnlinkRefused, UnlinkGranted, CanEnter, Used;
    match c
    case Creating(path, s, f, flags, nr, first, p, name, m) =>
      NumberUnused(x.v, y.v, Tab(x), m, sb, nr, first, p, name);
    case Unlinking(path) =>
    case Moving(s, moved) => MovedExtent(x, c, y, sb, n);
    case _ =>
  }

  lemma MovedExtent(x: State, c: Change, y: State, sb: SuperBlock, n: nat)
    requires Sound(x, sb) && c.Moving? && By(x, c, y, sb) && InUse(x.v, n)
    ensures |y.v.recs| >= n && SameExtent(Rec(y.v, n), Rec(x.v, n))
  {
    hide Targets, ExtentsOk, SmapExact, NamesOk;
    SlotRecord(x, sb, c.s);
    assert Tab(y).recs == y.v.recs && Tab(x).recs == x.v.recs;
  }

  /** Extents of different i-nodes have no byte in common. */
  lemma BytesApart(v: Vol, sb: SuperBlock, n: nat, m: nat, p: nat)
    requires Consistent(v, sb) && InUse(v, n) && InUse(v, m)
    requires Rec(v, n).startSect * SECTOR_SIZE <= p < (Rec(v, n).startSect + Rec(v, n).nrSects) * SECTOR_SIZE
    requires Rec(v, m).startSect * SECTOR_SIZE <= p < (Rec(v, m).startSect + Rec(v, m).nrSects) * SECTOR_SIZE
    ensures n == m
  {
    hide ImapOk, SmapExact, NamesOk;
    var b := p / SECTOR_SIZE - sb.n1stSect + 1;
    assert InExtent(sb, Rec(v, n), b) && InExtent(sb, Rec(v, m), b);
  }

  /** Where the files begin. */
  lemma FileBehind(v: Vol, sb: SuperBlock, n: nat)
    requires Consistent(v, sb) && InUse(v, n) && Rec(v, n).mode == I_REGULAR
    ensures (sb.n1stSect + NR_DEFAULT_FILE_SECTS) * SECTOR_SIZE <= Rec(v, n).startSect * SECTOR_SIZE
  {
    hide SmapExact, NamesOk;
    BehindRoot(v, sb, n);
  }

  /** A turn changes the contents of a file only by what it writes to that file. */
  lemma TurnContent(x: State, c: Change, y: State, d: seq<byte>, e: seq<byte>, w: seq<byte>, sb: SuperBlock, n: nat)
    requires Sound(x, sb) && By(x, c, y, sb) && Carries(x, c, d, e, w, sb) && Contained(x, c, w)
    requires InUse(x.v, n) && InUse(y.v, n) && Rec(x.v, n).mode == I_REGULAR && OnDisk(d, Rec(x.v, n))
    ensures SameExtent(Rec(y.v, n), Rec(x.v, n)) && OnDisk(e, Rec(y.v, n))
    ensures Content(e, Rec(y.v, n)) == After(Content(d, Rec(x.v, n)), x, c, w, n)
  {
    hide By, Inv, Consistent, RootPinned;
    RegularFile(x.v, sb, n);
    ExtentStays(x, c, y, sb, n);
    FileBehind(x.v, sb, n);
    if w != [] {
      SlotRecord(x, sb, c.s);
      WriteContent(x.v, d, e, sb, Rec(x.v, n), n, NumberOf(Tab(x), c.s), PosOf(Tab(x), c.s), w);
    }
  }

  /** A write within the extent of `m` is a write to the contents of `n` exactly when they are the same file. */
  lemma WriteContent(v: Vol, d: seq<byte>, e: seq<byte>, sb: SuperBlock, r: Inode, n: nat, m: nat, pos: nat,
                     w: seq<byte>)
    requires Consistent(v, sb) && InUse(v, n) && InUse(v, m) && r == Rec(v, n) && OnDisk(d, r)
    requires (sb.n1stSect + NR_DEFAULT_FILE_SECTS) * SECTOR_SIZE <= r.startSect * SECTOR_SIZE
    requires pos + |w| <= Rec(v, m).nrSects * SECTOR_SIZE && Rec(v, m).startSect * SECTOR_SIZE + pos + |w| <= |d|
    requires SameFiles(e, Splice(d, Rec(v, m).startSect * SECTOR_SIZE + pos, w), sb)
    ensures OnDisk(e, r) && Content(e, r) == if n == m then Splice(Content(d, r), pos, w) else Content(d, r)
  {
    hide Consistent, Splice, Content;
    var base := Rec(v, m).startSect * SECTOR_SIZE + pos;
    var b := if n == m then Splice(Content(d, r), pos, w) else Content(d, r);
    forall q | 0 <= q < r.nrSects * SECTOR_SIZE ensures Content(e, r)[q] == b[q] {
      var p := r.startSect * SECTOR_SIZE + q;
      ContentAt(d, r, q);
      ContentAt(e, r, q);
      assert e[p] == Splice(d, base, w)[p];
      SpliceAt(d, base, w, p);
      if n == m {
        SpliceAt(Content(d, r), pos, w, q);
      } else if base <= p < base + |w| {
        BytesApart(v, sb, n, m, p);
      }
    }
  }

  lemma ContentAt(d: seq<byte>, x: Inode, q: nat)
    requires OnDisk(d, x) && q < x.nrSects * SECTOR_SIZE
    ensures Content(d, x)[q] == d[x.startSect * SECTOR_SIZE + q]
  {
  }

  lemma SpliceAt(d: seq<byte>, p: nat, w: seq<byte>, q: nat)
    requires p + |w| <= |d| && q < |d|
    ensures Splice(d, p, w)[q] == if p <= q < p + |w| then w[q - p] else d[q]
  {
  }

  /** A write that runs over the end of its file writes to the file right behind it. */
  lemma OverrunLands(x: State, c: Change, d: seq<byte>, e: seq<byte>, w: seq<byte>, sb: SuperBlock, n: nat)
    requires Sound(x, sb) && Carries(x, c, d, e, w, sb) && c.Moving? && UsedSlot(Tab(x), c.s) && !Contained(x, c, w)
    requires InUse(x.v, n) && Rec(x.v, n).mode == I_REGULAR && OnDisk(d, Rec(x.v, n))
    requires var r := Behind(Tab(x), c.s);
      Rec(x.v, n).startSect == r.startSect + r.nrSects && PosOf(Tab(x), c.s) <= r.nrSects * SECTOR_SIZE
    ensures OnDisk(e, Rec(x.v, n)) && |Content(e, Rec(x.v, n))| > 0
    ensures Content(e, Rec(x.v, n))[0] == w[Behind(Tab(x), c.s).nrSects * SECTOR_SIZE - PosOf(Tab(x), c.s)]
  {
    hide Inv, Consistent, RootPinned;
    RegularFile(x.v, sb, n);
    FileBehind(x.v, sb, n);
    var base := BaseOf(Tab(x), c.s);
    assert e[Rec(x.v, n).startSect * SECTOR_SIZE] == Splice(d, base, w)[Rec(x.v, n).startSect * SECTOR_SIZE];
  }

  // ---------------------------------------------------------------- whole runs

  /** The file is there before and after each of the first `k` turns, and none of them writes over an end. */
  ghost predicate Undisturbed(run: seq<State>, cs: seq<Change>, ws: seq<seq<byte>>, n: nat, k: nat)
    requires k <= |cs| < |run| && |ws| == |cs|
  {
    (forall i :: 0 <= i <= k ==> InUse(run[i].v, n)) && forall i :: 0 <= i < k ==> Contained(run[i], cs[i], ws[i])
  }

  /** Over every run, whatever happens to other files, a file that is not removed holds what it held at the start with
      its own writes replayed, provided that every write, to this file or another, ends within its extent. */
  lemma {:induction false} RunContent(run: seq<State>, cs: seq<Change>, ds: seq<seq<byte>>, ws: seq<seq<byte>>,
                                      sb: SuperBlock, n: nat, k: nat)
    requires DataRun(run, cs, ds, ws, sb) && k <= |cs| && SoundUpTo(run, sb, k) && Undisturbed(run, cs, ws, n, k)
    requires InUse(run[0].v, n) && Rec(run[0].v, n).mode == I_REGULAR && OnDisk(ds[0], Rec(run[0].v, n))
    ensures InUse(run[k].v, n) && SameExtent(Rec(run[k].v, n), Rec(run[0].v, n)) && OnDisk(ds[k], Rec(run[k].v, n))
    ensures Content(ds[k], Rec(run[k].v, n)) == Replay(Content(ds[0], Rec(run[0].v, n)), run, cs, ws, n, k)
  {
    hide By, Sound, Carries, Contained, InUse, Content, OnDisk, After;
    if k > 0 {
      RunContent(run, cs, ds, ws, sb, n, k - 1);
      var x, c, y := run[k - 1], cs[k - 1], run[k];
      assert By(run[k - 1], cs[k - 1], run[k - 1 + 1], sb) && Sound(x, sb);
      assert Carries(run[k - 1], cs[k - 1], ds[k - 1], ds[k - 1 + 1], ws[k - 1], sb);
      TurnContent(x, c, y, ds[k - 1], ds[k], ws[k - 1], sb, n);
    }
  }
}
