/** The tables of the file system task: `inode_table`, `f_desc_table` and the `filp` arrays of the
    process table, with the reference counts that open, close, fork, exit, stat and unlink maintain,
    and the i-node records on disk behind the cache. */
module FileTable {
  import opened Const
  import opened Inodes

  const I_REGULAR := 0x8000
  const I_DIRECTORY := 0x4000
  const I_CHAR_SPECIAL := 0x2000
  /** NR_SLOTS * NR_FILES entries: slot `pid * NR_FILES + fd` is `proc_table[pid].filp[fd]`. */
  const NR_FILP := 2368

  /** `struct inode` in memory: the four words of the record, `i_cnt` and `i_num`. */
  datatype CachedInode = CachedInode(rec: Inode, cnt: nat, num: nat)
  /** `struct file_desc`; `inode` is an index of the i-node table. */
  datatype Desc = Desc(mode: int, pos: int, cnt: nat, inode: Option<nat>)

  /** The tables, the records on disk, the i-nodes in use, and how many references to each entry of
      the i-node table are held by the file system itself instead of by a `filp` slot. */
  datatype Tables = Tables(inodes: seq<CachedInode>, descs: seq<Desc>, filp: seq<Option<nat>>,
                           recs: seq<Inode>, live: set<int>, held: seq<nat>)

  /** The i-node that each `filp` slot reaches. */
  function Target(descs: seq<Desc>, o: Option<nat>): Option<nat> {
    if o.Some? && o.value < |descs| then descs[o.value].inode else None
  }

  function Targets(filp: seq<Option<nat>>, descs: seq<Desc>): (r: seq<Option<nat>>)
    ensures |r| == |filp|
  {
    seq(|filp|, s requires 0 <= s < |filp| => Target(descs, filp[s]))
  }

  ghost predicate Shape(t: Tables) {
    && |t.inodes| == NR_INODE == |t.held| && |t.descs| == NR_FILE_DESC && |t.filp| == NR_FILP
    && (forall s :: 0 <= s < NR_FILP && t.filp[s].Some? ==> t.filp[s].value < NR_FILE_DESC)
    && (forall f :: 0 <= f < NR_FILE_DESC && t.descs[f].inode.Some? ==> t.descs[f].inode.value < NR_INODE)
  }

  /** `fd_cnt` is the number of slots with the descriptor, and `fd_inode` is null exactly when that is 0. */
  ghost predicate DescCounts(t: Tables) {
    && (forall f :: 0 <= f < |t.descs| ==> t.descs[f].cnt == multiset(t.filp)[Some(f)])
    && (forall f :: 0 <= f < |t.descs| ==> (t.descs[f].inode.None? <==> t.descs[f].cnt == 0))
  }

  /** `i_cnt` is the number of slots that reach the i-node, plus the references held elsewhere. */
  ghost predicate InodeCounts(t: Tables)
    requires |t.inodes| == |t.held|
  {
    forall p :: 0 <= p < |t.inodes| ==> t.inodes[p].cnt == multiset(Targets(t.filp, t.descs))[Some(p)] + t.held[p]
  }

  /** An entry in use is the only one for its i-node, which is allocated, and equals its record on disk. */
  ghost predicate CacheOk(t: Tables) {
    && (forall p :: 0 <= p < |t.inodes| && t.inodes[p].cnt > 0 ==>
          && 1 <= t.inodes[p].num <= |t.recs| && t.inodes[p].rec == t.recs[t.inodes[p].num - 1]
          && t.inodes[p].num in t.live)
    && (forall p, q :: 0 <= p < q < |t.inodes| && t.inodes[p].cnt > 0 && t.inodes[q].cnt > 0 ==>
          t.inodes[p].num != t.inodes[q].num)
  }

  ghost predicate Inv(t: Tables) { Shape(t) && DescCounts(t) && InodeCounts(t) && CacheOk(t) }

  // ---------------------------------------------------------------- primitive steps

  /** The entry in use for i-node `num`, from `p` on. */
  function CachedFrom(inodes: seq<CachedInode>, num: nat, p: nat): (r: nat)
    requires p <= |inodes|
    ensures p <= r <= |inodes| && (r < |inodes| ==> inodes[r].cnt > 0 && inodes[r].num == num)
    ensures forall k :: p <= k < r ==> inodes[k].cnt == 0 || inodes[k].num != num
    decreases |inodes| - p
  {
    if p == |inodes| || (inodes[p].cnt > 0 && inodes[p].num == num) then p else CachedFrom(inodes, num, p + 1)
  }

  /** The first entry not in use, from `p` on. */
  function FreeFrom(inodes: seq<CachedInode>, p: nat): (r: nat)
    requires p <= |inodes|
    ensures p <= r <= |inodes| && (r < |inodes| ==> inodes[r].cnt == 0)
    ensures forall k :: p <= k < r ==> inodes[k].cnt > 0
    decreases |inodes| - p
  {
    if p == |inodes| || inodes[p].cnt == 0 then p else FreeFrom(inodes, p + 1)
  }

  /** The entry that `get_inode` returns for `num`; |inodes| when the table is full and it panics. */
  function EntryFor(inodes: seq<CachedInode>, num: nat): (p: nat)
    ensures p <= |inodes|
  {
    var c := CachedFrom(inodes, num, 0);
    if c < |inodes| then c else FreeFrom(inodes, 0)
  }

  /** `get_inode` (fs/main.c:280-315) for `num` other than 0. The new reference is held by the caller. */
  function Acquire(t: Tables, num: nat): Tables
    requires |t.inodes| == |t.held| && 1 <= num <= |t.recs| && EntryFor(t.inodes, num) < |t.inodes|
  {
    var p := EntryFor(t.inodes, num);
    var e := t.inodes[p];
    t.(inodes := t.inodes[p := if CachedFrom(t.inodes, num, 0) < |t.inodes| then e.(cnt := e.cnt + 1)
                                else CachedInode(t.recs[num - 1], 1, num)],
       held := t.held[p := t.held[p] + 1])
  }

  /** `put_inode` (fs/main.c:370-373). */
  function Release(t: Tables, p: nat): Tables
    requires p < |t.inodes| == |t.held| && t.inodes[p].cnt > 0 && t.held[p] > 0
  {
    t.(inodes := t.inodes[p := t.inodes[p].(cnt := t.inodes[p].cnt - 1)], held := t.held[p := t.held[p] - 1])
  }

  /** The assignments of `do_open` (fs/open.c:99-106): the held reference becomes a slot's. */
  function Connect(t: Tables, s: nat, f: nat, p: nat, flags: int): Tables
    requires s < |t.filp| && f < |t.descs| && p < |t.held| && t.held[p] > 0
  {
    t.(filp := t.filp[s := Some(f)], descs := t.descs[f := Desc(flags, 0, 1, Some(p))],
       held := t.held[p := t.held[p] - 1])
  }

  /** One slot of `fs_fork` (fs/main.c:380-383), together with the copy that `do_fork` made of it. */
  function Attach(t: Tables, s: nat, f: nat): Tables
    requires s < |t.filp| && f < |t.descs| && t.descs[f].inode.Some? && t.descs[f].inode.value < |t.inodes|
  {
    var p := t.descs[f].inode.value;
    t.(filp := t.filp[s := Some(f)],
       descs := t.descs[f := t.descs[f].(cnt := t.descs[f].cnt + 1)],
       inodes := t.inodes[p := t.inodes[p].(cnt := t.inodes[p].cnt + 1)])
  }

  /** `do_close` and one slot of `fs_exit` (fs/open.c:182-191, fs/main.c:394-401). */
  function Detach(t: Tables, s: nat): Tables
    requires s < |t.filp| && t.filp[s].Some? && t.filp[s].value < |t.descs|
    requires var d := t.descs[t.filp[s].value];
      d.cnt > 0 && d.inode.Some? && d.inode.value < |t.inodes| && t.inodes[d.inode.value].cnt > 0
  {
    var f := t.filp[s].value;
    var d := t.descs[f];
    var p := d.inode.value;
    t.(filp := t.filp[s := None],
       descs := t.descs[f := if d.cnt == 1 then d.(cnt := 0, inode := None) else d.(cnt := d.cnt - 1)],
       inodes := t.inodes[p := t.inodes[p].(cnt := t.inodes[p].cnt - 1)])
  }

  /** An i-node in memory changes and is written back by `sync_inode` (fs/main.c:317-328). */
  function Sync(t: Tables, p: nat, rec: Inode): Tables
    requires p < |t.inodes| && 1 <= t.inodes[p].num <= |t.recs|
  {
    t.(inodes := t.inodes[p := t.inodes[p].(rec := rec)], recs := t.recs[t.inodes[p].num - 1 := rec])
  }

  /** The tables with i-node `nr` in entry `p`, in memory and on disk. */
  function TakeEntry(t: Tables, p: nat, x: Inode, nr: nat): Tables
    requires p < |t.inodes| == |t.held| && 1 <= nr <= |t.recs|
  {
    t.(inodes := t.inodes[p := CachedInode(x, 1, nr)], recs := t.recs[nr - 1 := x], held := t.held[p := t.held[p] + 1])
  }

  /** The i-node is gone, from the disk and from memory. */
  function Wiped(t: Tables, p: nat, nr: nat): Tables
    requires p < |t.inodes| == |t.held| && 1 <= nr <= |t.recs| && t.inodes[p].cnt == 1 && t.held[p] > 0
  {
    t.(inodes := t.inodes[p := CachedInode(NO_RECORD, 0, t.inodes[p].num)], recs := t.recs[nr - 1 := NO_RECORD],
       live := t.live - {nr}, held := t.held[p := t.held[p] - 1])
  }

  /** A descriptor at another position. */
  function AtPos(t: Tables, f: nat, pos: int): Tables
    requires f < |t.descs|
  {
    t.(descs := t.descs[f := t.descs[f].(pos := pos)])
  }

  lemma TargetsSet(filp: seq<Option<nat>>, descs: seq<Desc>, s: nat, o: Option<nat>)
    requires s < |filp|
    ensures Targets(filp[s := o], descs) == Targets(filp, descs)[s := Target(descs, o)]
  {
  }

  /** Descriptors that no slot has do not matter, nor do changes that keep `fd_inode`. */
  lemma TargetsAgree(filp: seq<Option<nat>>, descs: seq<Desc>, descs': seq<Desc>)
    requires |descs| == |descs'|
    requires forall f :: 0 <= f < |descs| ==> descs[f].inode == descs'[f].inode || Some(f) !in filp
    ensures Targets(filp, descs) == Targets(filp, descs')
  {
    var a, b := Targets(filp, descs), Targets(filp, descs');
    forall s | 0 <= s < |filp| ensures a[s] == b[s] {
      if filp[s].Some? && filp[s].value < |descs| {
        assert Some(filp[s].value) in filp;
      }
    }
  }

  /** A used slot is counted. */
  lemma SlotCounts(t: Tables, s: nat)
    requires Shape(t) && DescCounts(t) && InodeCounts(t) && s < NR_FILP && t.filp[s].Some?
    ensures var d := t.descs[t.filp[s].value];
      d.cnt > 0 && d.inode.Some? && t.inodes[d.inode.value].cnt > 0
  {
    var f := t.filp[s].value;
    assert t.filp[s] in multiset(t.filp);
    var g := Targets(t.filp, t.descs);
    assert g[s] in multiset(g);
  }

  lemma AcquireCache(t: Tables, num: nat)
    requires Shape(t) && CacheOk(t) && 1 <= num <= |t.recs| && EntryFor(t.inodes, num) < |t.inodes|
    ensures CacheOk(Acquire(t, num)) <==> num in t.live
    ensures var e := Acquire(t, num).inodes[EntryFor(t.inodes, num)];
      e.num == num && e.rec == t.recs[num - 1] && e.cnt > 0
  {
    hide CachedFrom, FreeFrom;
    var e := Acquire(t, num).inodes[EntryFor(t.inodes, num)];
    assert e.num == num && e.cnt > 0;
  }

  /** A reference taken leaves the tables sound exactly when the i-node is in use; the entry has what the disk
      has in any case. */
  lemma AcquireKeeps(t: Tables, num: nat)
    requires Inv(t) && 1 <= num <= |t.recs| && EntryFor(t.inodes, num) < |t.inodes|
    ensures Inv(Acquire(t, num)) <==> num in t.live
    ensures var e := Acquire(t, num).inodes[EntryFor(t.inodes, num)];
      e.num == num && e.rec == t.recs[num - 1] && e.cnt > 0
  {
    hide CachedFrom, FreeFrom, CacheOk, Targets;
    AcquireCache(t, num);
  }

  /** A reference taken and given up again leaves them sound, even when the i-node is not in use. */
  lemma LookKeeps(t: Tables, num: nat)
    requires Inv(t) && 1 <= num <= |t.recs| && EntryFor(t.inodes, num) < |t.inodes|
    ensures var u := Acquire(t, num);
      u.inodes[EntryFor(t.inodes, num)].cnt > 0 && Inv(Release(u, EntryFor(t.inodes, num)))
  {
    hide CachedFrom, FreeFrom, CacheOk, Targets;
    AcquireKeeps(t, num);
    var p := EntryFor(t.inodes, num);
    LookCache(t, num);
    assert Release(Acquire(t, num), p).held == t.held;
  }

  lemma LookCache(t: Tables, num: nat)
    requires Shape(t) && CacheOk(t) && 1 <= num <= |t.recs| && EntryFor(t.inodes, num) < |t.inodes|
    requires Acquire(t, num).inodes[EntryFor(t.inodes, num)].cnt > 0
    ensures CacheOk(Release(Acquire(t, num), EntryFor(t.inodes, num)))
  {
    hide CachedFrom, FreeFrom;
  }

  lemma ReleaseKeeps(t: Tables, p: nat)
    requires Inv(t) && p < NR_INODE && t.held[p] > 0
    ensures t.inodes[p].cnt > 0 && Inv(Release(t, p))
  {
    hide CacheOk, Targets;
    CacheStays(t, Release(t, p));
  }

  /** Counts of entries in use may change, as long as no entry comes into use. */
  lemma CacheStays(t: Tables, t': Tables)
    requires CacheOk(t) && |t'.inodes| == |t.inodes| && t'.recs == t.recs && t'.live == t.live
    requires forall p :: 0 <= p < |t.inodes| ==>
      t'.inodes[p].rec == t.inodes[p].rec && t'.inodes[p].num == t.inodes[p].num
      && (t'.inodes[p].cnt > 0 ==> t.inodes[p].cnt > 0)
    ensures CacheOk(t')
  {
  }

  /** Positions do not matter. */
  lemma PositionKeeps(t: Tables, f: nat, pos: int)
    requires Inv(t) && f < NR_FILE_DESC
    ensures Inv(AtPos(t, f, pos))
  {
    hide CacheOk, Targets;
    TargetsAgree(t.filp, t.descs, AtPos(t, f, pos).descs);
    CacheStays(t, AtPos(t, f, pos));
  }

  lemma ConnectKeeps(t: Tables, s: nat, f: nat, p: nat, flags: int)
    requires Inv(t) && s < NR_FILP && t.filp[s] == None && f < NR_FILE_DESC && t.descs[f].inode.None?
    requires p < NR_INODE && t.held[p] > 0
    ensures Inv(Connect(t, s, f, p, flags))
  {
    hide CacheOk, Targets;
    var t' := Connect(t, s, f, p, flags);
    assert Some(f) !in t.filp;
    TargetsAgree(t.filp, t.descs, t'.descs);
    TargetsSet(t.filp, t'.descs, s, Some(f));
    assert Target(t'.descs, Some(f)) == Some(p);
    assert Targets(t.filp, t.descs)[s] == None by { TargetAt(t.filp, t.descs, s); }
    CacheStays(t, t');
  }

  lemma TargetAt(filp: seq<Option<nat>>, descs: seq<Desc>, s: nat)
    requires s < |filp|
    ensures Targets(filp, descs)[s] == Target(descs, filp[s])
  {
  }

  lemma AttachInodes(t: Tables, s: nat, f: nat)
    requires Shape(t) && InodeCounts(t) && s < NR_FILP && t.filp[s] == None && f < NR_FILE_DESC
      && t.descs[f].inode.Some?
    ensures InodeCounts(Attach(t, s, f))
  {
    hide Targets;
    var t' := Attach(t, s, f);
    TargetsAgree(t.filp, t.descs, t'.descs);
    TargetsSet(t.filp, t'.descs, s, Some(f));
    TargetAt(t.filp, t.descs, s);
  }

  lemma AttachDescs(t: Tables, s: nat, f: nat)
    requires Shape(t) && DescCounts(t) && s < NR_FILP && t.filp[s] == None && f < NR_FILE_DESC && t.descs[f].inode.Some?
    ensures DescCounts(Attach(t, s, f))
  {
    var t' := Attach(t, s, f);
    assert multiset(t'.filp) == multiset(t.filp) - multiset{None} + multiset{Some(f)};
  }

  lemma AttachKeeps(t: Tables, s: nat, f: nat)
    requires Inv(t) && s < NR_FILP && t.filp[s] == None && f < NR_FILE_DESC && t.descs[f].inode.Some?
    ensures Inv(Attach(t, s, f))
  {
    hide CacheOk, InodeCounts;
    AttachDescs(t, s, f);
    AttachInodes(t, s, f);
    assert t.descs[f].cnt > 0;
    var k :| 0 <= k < NR_FILP && t.filp[k] == Some(f);
    SlotCounts(t, k);
    CacheStays(t, Attach(t, s, f));
  }

  lemma DetachInodes(t: Tables, s: nat)
    requires Shape(t) && DescCounts(t) && InodeCounts(t) && s < NR_FILP && t.filp[s].Some?
    requires var d := t.descs[t.filp[s].value]; d.cnt > 0 && d.inode.Some? && t.inodes[d.inode.value].cnt > 0
    ensures InodeCounts(Detach(t, s))
  {
    hide Targets;
    var t', f := Detach(t, s), t.filp[s].value;
    TargetsSet(t.filp, t.descs, s, None);
    TargetAt(t.filp, t.descs, s);
    if t.descs[f].cnt == 1 {
      assert multiset(t'.filp)[Some(f)] == 0;
    }
    TargetsAgree(t'.filp, t.descs, t'.descs);
  }

  lemma DetachDescs(t: Tables, s: nat)
    requires Shape(t) && DescCounts(t) && s < NR_FILP && t.filp[s].Some?
    requires var d := t.descs[t.filp[s].value]; d.cnt > 0 && d.inode.Some? && t.inodes[d.inode.value].cnt > 0
    ensures DescCounts(Detach(t, s))
  {
    assert multiset(Detach(t, s).filp) == multiset(t.filp) - multiset{t.filp[s]} + multiset{None};
  }

  lemma DetachKeeps(t: Tables, s: nat)
    requires Inv(t) && s < NR_FILP && t.filp[s].Some?
    ensures var d := t.descs[t.filp[s].value];
      d.cnt > 0 && d.inode.Some? && t.inodes[d.inode.value].cnt > 0 && Inv(Detach(t, s))
  {
    hide CacheOk, InodeCounts, DescCounts;
    SlotCounts(t, s);
    DetachDescs(t, s);
    DetachInodes(t, s);
    CacheStays(t, Detach(t, s));
  }

  lemma SyncKeeps(t: Tables, p: nat, rec: Inode)
    requires Inv(t) && p < NR_INODE && t.inodes[p].cnt > 0
    ensures Inv(Sync(t, p, rec))
    ensures forall k :: 0 <= k < |t.recs| && k != t.inodes[p].num - 1 ==> Sync(t, p, rec).recs[k] == t.recs[k]
  {
  }

  lemma WipeKeeps(t: Tables, p: nat, nr: nat)
    requires Inv(t) && p < NR_INODE && t.inodes[p].num == nr && t.inodes[p].cnt == 1 && t.held[p] > 0
    ensures 1 <= nr <= |t.recs| && Inv(Wiped(t, p, nr))
  {
    hide Targets;
    assert InodeCounts(Wiped(t, p, nr));
  }
}
