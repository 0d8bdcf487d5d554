/** Files of one size never fragment the disk: over every run of creating and unlinking files after
    `mkfs`, their extents stay on a grid of NR_DEFAULT_FILE_SECTS sectors between the root directory
    and cmd.tar, and the assertion of `alloc_smap_bit` fails exactly when that grid is full. */
module UniformExtents {
  import opened Const
  import opened BlockDevice
  import opened SectorMap
  import opened Words
  import opened Directory
  import opened DirectoryMap
  import opened Volume

  /** The first bit of the grid: after bit 0 and the root directory. */
  const GRID := 513
  const CELL := 512
  /** i-node number of cmd.tar; 2, 3 and 4 are the terminals (fs/main.c:227-263). */
  const CMD_INODE := 5

  /** The first bit of cmd.tar (fs/main.c:208). */
  function CmdBit(sb: SuperBlock): int { INSTALL_START_SECT - sb.n1stSect + 1 }

  predicate OnCell(lo: int) { lo >= GRID && (lo - GRID) % CELL == 0 }

  /** The files of `mkfs` are where it put them, and every other file has one cell of the grid. */
  ghost predicate OnGrid(v: Vol, sb: SuperBlock) {
    && Consistent(v, sb) && Geometry(sb) && sb.n1stSect > 0
    && GRID <= CmdBit(sb) && CmdBit(sb) + INSTALL_NR_SECTS <= MapBits(sb)
    && (forall n :: 1 <= n <= CMD_INODE ==> InUse(v, n))
    && (forall n :: 1 < n < CMD_INODE ==> Rec(v, n).nrSects == 0)
    && FirstBit(sb, Rec(v, CMD_INODE)) == CmdBit(sb) && Rec(v, CMD_INODE).nrSects == INSTALL_NR_SECTS
    && (forall n :: InUse(v, n) && n > CMD_INODE ==> HasCell(v, sb, n))
  }

  predicate HasCell(v: Vol, sb: SuperBlock, n: int)
    requires InUse(v, n)
  {
    Rec(v, n).nrSects == CELL && OnCell(FirstBit(sb, Rec(v, n))) && FirstBit(sb, Rec(v, n)) + CELL <= CmdBit(sb)
  }

  /** A cell below cmd.tar without a file. */
  ghost predicate FreeCell(v: Vol, sb: SuperBlock, c: int) {
    OnCell(c) && c + CELL <= CmdBit(sb) && forall n :: InUse(v, n) && n > CMD_INODE ==> FirstBit(sb, Rec(v, n)) != c
  }

  /** The grid does not end exactly where cmd.tar begins. */
  predicate Gap(sb: SuperBlock) { (CmdBit(sb) - GRID) % CELL != 0 }

  /** The start of the cell of a bit. */
  function CellOf(b: int): (c: int)
    requires b >= GRID
    ensures OnCell(c) && c <= b < c + CELL
  {
    b - (b - GRID) % CELL
  }

  lemma CellsApart(c: int, d: int, b: int)
    requires OnCell(c) && OnCell(d) && c <= b < c + CELL && d <= b < d + CELL
    ensures c == d
  {
  }

  /** A set bit of the grid belongs to a file that starts at its cell. */
  lemma SetBitHasFile(v: Vol, sb: SuperBlock, b: int) returns (n: int)
    requires OnGrid(v, sb) && GRID <= b < CmdBit(sb) && b in v.sectMap
    ensures InUse(v, n) && n > CMD_INODE && FirstBit(sb, Rec(v, n)) == CellOf(b)
  {
    n :| InUse(v, n) && InExtent(sb, Rec(v, n), b);
    assert n != ROOT_INODE && n >= CMD_INODE;
    assert n != CMD_INODE;
    CellsApart(FirstBit(sb, Rec(v, n)), CellOf(b), b);
  }

  /** A file covers its whole cell. */
  lemma CellSet(v: Vol, sb: SuperBlock, n: int, b: int)
    requires OnGrid(v, sb) && InUse(v, n) && n > CMD_INODE
      && FirstBit(sb, Rec(v, n)) <= b < FirstBit(sb, Rec(v, n)) + CELL
    ensures b in v.sectMap
  {
    assert HasCell(v, sb, n);
    assert InExtent(sb, Rec(v, n), b);
  }

  /** The bits of a cell are set together. */
  lemma CellTogether(v: Vol, sb: SuperBlock, b: int, b': int)
    requires OnGrid(v, sb) && GRID <= b < CmdBit(sb) && b in v.sectMap && CellOf(b) <= b' < CellOf(b) + CELL
    ensures b' in v.sectMap
  {
    var n := SetBitHasFile(v, sb, b);
    CellSet(v, sb, n, b');
  }

  lemma BootBits(v: Vol, sb: SuperBlock, b: int)
    requires OnGrid(v, sb) && (0 <= b < GRID || CmdBit(sb) <= b < CmdBit(sb) + INSTALL_NR_SECTS)
    ensures b in v.sectMap
  {
    if b >= GRID {
      assert InExtent(sb, Rec(v, CMD_INODE), b);
    } else if b > 0 {
      assert InExtent(sb, Rec(v, ROOT_INODE), b);
    }
  }

  /** A cell that ends at `hi` leaves no gap. */
  lemma CellEnds(hi: int)
    ensures GRID < hi && CellOf(hi - 1) + CELL <= hi ==> (hi - GRID) % CELL == 0
  {
  }

  /** The last bit below cmd.tar is in the gap. */
  lemma GapClear(v: Vol, sb: SuperBlock)
    requires OnGrid(v, sb) && Gap(sb)
    ensures GRID <= CmdBit(sb) - 1 && CmdBit(sb) - 1 !in v.sectMap
  {
    if CmdBit(sb) - 1 in v.sectMap {
      var n := SetBitHasFile(v, sb, CmdBit(sb) - 1);
      CellEnds(CmdBit(sb));
    }
  }

  /** First fit takes a whole free cell of the grid, the lowest. */
  lemma FitIsCell(v: Vol, sb: SuperBlock, first: int)
    requires OnGrid(v, sb) && Gap(sb) && FirstFit(v.sectMap, MapBits(sb), CELL, first)
    ensures FreeCell(v, sb, first) && forall c :: FreeCell(v, sb, c) ==> first <= c
  {
    assert first !in v.sectMap;
    if first < GRID { BootBits(v, sb, first); }
    if first >= CmdBit(sb) { GapClear(v, sb); }
    assert GRID <= first < CmdBit(sb);
    if CellOf(first) < first {
      assert CellOf(first) in v.sectMap;
      CellTogether(v, sb, CellOf(first), first);
    }
    if CmdBit(sb) < first + CELL {
      BootBits(v, sb, CmdBit(sb));
    }
    forall n | InUse(v, n) && n > CMD_INODE ensures FirstBit(sb, Rec(v, n)) != first {
      if FirstBit(sb, Rec(v, n)) == first { CellSet(v, sb, n, first); }
    }
    forall c | FreeCell(v, sb, c) ensures first <= c {
      if c < first {
        var n := SetBitHasFile(v, sb, c);
      }
    }
  }

  lemma {:induction false} FirstClear(bits: set<int>, hi: int) returns (f: int)
    requires 0 <= hi && hi !in bits
    ensures 0 <= f <= hi && f !in bits && forall b :: 0 <= b < f ==> b in bits
    decreases hi
  {
    if b :| 0 <= b < hi && b !in bits {
      f := FirstClear(bits, b);
    } else {
      f := hi;
    }
  }

  /** The assertion of `alloc_smap_bit` cannot fail while a cell below cmd.tar is free, and it does fail
      when none is. */
  lemma AllocIff(v: Vol, sb: SuperBlock)
    requires OnGrid(v, sb) && Gap(sb)
    ensures (exists first :: FirstFit(v.sectMap, MapBits(sb), CELL, first)) <==> exists c :: FreeCell(v, sb, c)
  {
    if first :| FirstFit(v.sectMap, MapBits(sb), CELL, first) {
      FitIsCell(v, sb, first);
    }
    if c :| FreeCell(v, sb, c) {
      if c in v.sectMap { var n := SetBitHasFile(v, sb, c); }
      var f := FirstClear(v.sectMap, c);
      if f < GRID { BootBits(v, sb, f); }
      forall b | f <= b < f + CELL ensures b !in v.sectMap {
        ClearCell(v, sb, c, f, b);
      }
      assert FirstFit(v.sectMap, MapBits(sb), CELL, f) by { CellBelow(f, c); StartsCell(v, sb, f); }
    }
  }

  lemma CellBelow(f: int, c: int)
    requires OnCell(c) && GRID <= f <= c
    ensures CellOf(f) + CELL <= c + CELL
  {
  }

  /** The first clear bit of the grid starts a cell. */
  lemma StartsCell(v: Vol, sb: SuperBlock, f: int)
    requires OnGrid(v, sb) && GRID <= f < CmdBit(sb) && f !in v.sectMap && forall b :: 0 <= b < f ==> b in v.sectMap
    ensures CellOf(f) == f
  {
    if CellOf(f) < f {
      CellTogether(v, sb, CellOf(f), f);
    }
  }

  lemma ClearCell(v: Vol, sb: SuperBlock, c: int, f: int, b: int)
    requires OnGrid(v, sb) && FreeCell(v, sb, c) && GRID <= f <= c && f <= b < f + CELL
    requires f !in v.sectMap && forall b :: 0 <= b < f ==> b in v.sectMap
    ensures b !in v.sectMap
  {
    StartsCell(v, sb, f);
    CellBelow(f, c);
    CellsApart(CellOf(b), f, b);
    if b in v.sectMap {
      CellTogether(v, sb, b, f);
    }
  }

  /** Without the gap, first fit runs on behind cmd.tar when the grid is full. */
  lemma NoGapRunsOn(v: Vol, sb: SuperBlock)
    requires OnGrid(v, sb) && !Gap(sb) && !exists c :: FreeCell(v, sb, c)
    requires CmdBit(sb) + INSTALL_NR_SECTS + CELL <= MapBits(sb)
    requires forall b :: CmdBit(sb) + INSTALL_NR_SECTS <= b < CmdBit(sb) + INSTALL_NR_SECTS + CELL ==> b !in v.sectMap
    ensures FirstFit(v.sectMap, MapBits(sb), CELL, CmdBit(sb) + INSTALL_NR_SECTS)
  {
    var first := CmdBit(sb) + INSTALL_NR_SECTS;
    forall b | 0 <= b < first ensures b in v.sectMap {
      if GRID <= b < CmdBit(sb) {
        var c := CellOf(b);
        assert !FreeCell(v, sb, c);
        assert c + CELL <= CmdBit(sb);
        var n :| InUse(v, n) && n > CMD_INODE && FirstBit(sb, Rec(v, n)) == c;
        CellSet(v, sb, n, b);
      } else {
        BootBits(v, sb, b);
      }
    }
  }

  // ---------------------------------------------------------------- runs

  predicate Shaped(v: Vol) {
    && |v.recs| == NR_RECORDS && |v.slots| == DIR_SLOTS && Entries(v) + 1 < DIR_SLOTS
    && |v.slots[Place(v.slots, Entries(v))].name| == MAX_FILENAME_LEN
  }

  /** A file is created: the lowest free number, the first fit, and a free slot. */
  ghost predicate Creates(v: Vol, w: Vol, sb: SuperBlock, nr: word, first: int, name: seq<byte>) {
    && Shaped(v) && Geometry(sb) && sb.n1stSect > 0 && |name| <= MAX_FILENAME_LEN
    && FirstFit(v.inodeMap, NR_RECORDS, 1, nr) && FirstFit(v.sectMap, MapBits(sb), NR_DEFAULT_FILE_SECTS, first)
    && 1 < nr < NR_RECORDS && 0 <= first <= MapBits(sb) && Shaped(Allocated(v, sb, nr, first))
    && w == Named(Allocated(v, sb, nr, first), nr, name)
  }

  /** A created file is removed. */
  ghost predicate Removes(v: Vol, w: Vol, sb: SuperBlock, nr: word) {
    && |v.recs| == NR_RECORDS && |v.slots| == DIR_SLOTS && InUse(v, nr) && nr > CMD_INODE
    && FindNr(v.slots, nr) < Entries(v) <= DIR_SLOTS && Entries(Freed(v, sb, nr)) == Entries(v)
    && w == Unnamed(Freed(v, sb, nr), nr)
  }

  ghost predicate Step(v: Vol, w: Vol, sb: SuperBlock) {
    || (exists nr, first, name :: Creates(v, w, sb, nr, first, name))
    || (exists nr :: Removes(v, w, sb, nr))
  }

  ghost predicate Run(run: seq<Vol>, sb: SuperBlock) {
    forall i :: 0 <= i < |run| - 1 ==> Step(run[i], run[i + 1], sb)
  }

  lemma NamedFrame(v: Vol, nr: word, name: seq<byte>)
    requires |v.recs| == NR_RECORDS && Entries(v) < DIR_SLOTS == |v.slots| && |name| <= MAX_FILENAME_LEN
    requires |v.slots[Place(v.slots, Entries(v))].name| == MAX_FILENAME_LEN
    ensures var w := Named(v, nr, name);
      w.inodeMap == v.inodeMap && |w.recs| == NR_RECORDS && forall n :: 1 < n <= NR_RECORDS ==> Rec(w, n) == Rec(v, n)
  {
    hide FindNr, NameOver;
  }

  lemma BootNumber(v: Vol, sb: SuperBlock, n: int)
    requires OnGrid(v, sb)
    ensures 1 <= n <= CMD_INODE ==> n in v.inodeMap
  {
    assert 1 <= n <= CMD_INODE ==> InUse(v, n);
  }

  /** Every number in use fits in a byte. */
  ghost predicate Low(v: Vol) { forall n :: n in v.inodeMap ==> n < 0x100 }

  /** Then what a 12-character name leaves of the next entry's number is 0, and every name is harmless. */
  lemma LowIsHarmless(v: Vol, sb: SuperBlock, name: seq<byte>)
    requires Consistent(v, sb) && Low(v) && Entries(v) + 1 < DIR_SLOTS
    ensures Harmless(v, name)
  {
    hide FindNr, ExtentsOk, SmapExact;
    var at := Place(v.slots, Entries(v));
    if at + 1 < Entries(v) {
      var k := v.slots[at + 1].nr;
      assert k != 0 ==> InUse(v, k);
      assert k < 0x100 && k / 0x100 * 0x100 == 0;
    }
  }

  /** A new file keeps the numbers low: the files below it fill the numbers up to its own. */
  lemma CreateLow(v: Vol, w: Vol, sb: SuperBlock, nr: word, first: int, name: seq<byte>)
    requires OnGrid(v, sb) && Low(v) && Creates(v, w, sb, nr, first, name)
    ensures Low(w)
  {
    hide OnGrid, FindNr, Enter, FirstFit;
    FitFree(v.inodeMap, NR_RECORDS, 1, nr);
    Crowd(v, sb, nr);
    assert w.inodeMap == v.inodeMap + {nr};
  }

  /** Creating a file, whatever its name, keeps all files on the grid. */
  lemma CreateOnGrid(v: Vol, w: Vol, sb: SuperBlock, nr: word, first: int, name: seq<byte>)
    requires OnGrid(v, sb) && Low(v) && Gap(sb) && Creates(v, w, sb, nr, first, name)
    ensures OnGrid(w, sb)
  {
    hide Consistent, Named, FindNr, Enter, ImapOk, ExtentsOk, SmapExact, NamesOk, Harmless, Low;
    LowIsHarmless(v, sb, name);
    CreateKeepsIff(v, sb, nr, first, name);
    FitIsCell(v, sb, first);
    ConsistentFacts(v, sb);
    FitFree(v.inodeMap, NR_RECORDS, 1, nr);
    BootNumber(v, sb, nr);
    assert nr > CMD_INODE;
    var u := Allocated(v, sb, nr, first);
    AllocatedSame(v, sb, nr, first);
    NamedFrame(u, nr, name);
    forall n | InUse(w, n) && n > CMD_INODE ensures HasCell(w, sb, n) {
      if n == nr {
        assert Rec(w, n) == NewRecord(sb, first);
        assert FirstBit(sb, Rec(w, n)) == first;
      } else {
        assert InUse(v, n) && Rec(w, n) == Rec(v, n);
        assert HasCell(v, sb, n);
      }
    }
    ConsistentFacts(w, sb);
    RootStays(w, sb);
    assert forall n :: InUse(v, n) ==> InUse(w, n);
    assert forall n :: 1 < n <= CMD_INODE ==> Rec(w, n) == Rec(v, n);
  }

  lemma FitFree(bits: set<int>, total: nat, n: nat, first: int)
    requires FirstFit(bits, total, n, first) && n > 0
    ensures first !in bits && forall b :: 0 <= b < first ==> b in bits
  {
    var tried := first in bits;
  }

  lemma ConsistentFacts(v: Vol, sb: SuperBlock)
    requires Consistent(v, sb)
    ensures |v.recs| == NR_RECORDS && |v.slots| == DIR_SLOTS && Entries(v) < DIR_SLOTS
    ensures forall m :: 0 <= m < DIR_SLOTS ==> |v.slots[m].name| == MAX_FILENAME_LEN
  {
  }

  lemma RootStays(v: Vol, sb: SuperBlock)
    requires Consistent(v, sb)
    ensures InUse(v, ROOT_INODE)
  {
  }

  lemma RemoveOnGrid(v: Vol, w: Vol, sb: SuperBlock, nr: word)
    requires OnGrid(v, sb) && Removes(v, w, sb, nr)
    ensures OnGrid(w, sb)
  {
    hide Consistent, FindNr, Used, ImapOk, ExtentsOk, SmapExact, NamesOk;
    UnlinkKeeps(v, sb, nr);
    ConsistentFacts(v, sb);
    ConsistentFacts(w, sb);
    RootStays(w, sb);
    assert forall n :: 1 < n <= NR_RECORDS && n != nr ==> Rec(w, n) == Rec(v, n);
    assert forall n :: InUse(v, n) && n != nr ==> InUse(w, n);
    forall n | InUse(w, n) && n > CMD_INODE ensures HasCell(w, sb, n) {
      assert InUse(v, n) && Rec(w, n) == Rec(v, n);
      assert HasCell(v, sb, n);
    }
  }

  /** The size of a file is no business of the grid. */
  lemma SizedOnGrid(v: Vol, sb: SuperBlock, n: nat, size: word)
    requires OnGrid(v, sb) && 1 <= n <= NR_RECORDS && n != ROOT_INODE
    ensures OnGrid(v.(recs := v.recs[n - 1 := Rec(v, n).(size := size)]), sb)
  {
    hide Consistent;
    SizedKeeps(v, sb, n, size);
    ConsistentFacts(v, sb);
    var w := v.(recs := v.recs[n - 1 := Rec(v, n).(size := size)]);
    assert forall k :: InUse(v, k) <==> InUse(w, k);
    assert forall k :: 1 <= k <= NR_RECORDS ==>
      Rec(w, k).nrSects == Rec(v, k).nrSects && Rec(w, k).startSect == Rec(v, k).startSect;
    forall k | InUse(w, k) && k > CMD_INODE ensures HasCell(w, sb, k) {
      assert InUse(v, k) && HasCell(v, sb, k);
    }
  }

  /** Every state of every run stays consistent and on the grid, and its numbers low. */
  lemma {:induction false} RunOnGrid(run: seq<Vol>, sb: SuperBlock, i: nat)
    requires Run(run, sb) && i < |run| && OnGrid(run[0], sb) && Low(run[0]) && Gap(sb)
    ensures OnGrid(run[i], sb) && Consistent(run[i], sb) && Low(run[i])
  {
    if i > 0 {
      RunOnGrid(run, sb, i - 1);
      var v, w := run[i - 1], run[i];
      assert Step(run[i - 1], run[i - 1 + 1], sb);
      if nr, first, name :| Creates(v, w, sb, nr, first, name) {
        CreateOnGrid(v, w, sb, nr, first, name);
        CreateLow(v, w, sb, nr, first, name);
      } else {
        var nr :| Removes(v, w, sb, nr);
        RemoveOnGrid(v, w, sb, nr);
      }
    }
  }

  /** In every run, the allocation of a file's sectors fails exactly when every cell is taken. */
  lemma RunAllocates(run: seq<Vol>, sb: SuperBlock, i: nat)
    requires Run(run, sb) && i < |run| && OnGrid(run[0], sb) && Low(run[0]) && Gap(sb)
    ensures (exists first :: FirstFit(run[i].sectMap, MapBits(sb), CELL, first)) <==>
      exists c :: FreeCell(run[i], sb, c)
  {
    RunOnGrid(run, sb, i);
    AllocIff(run[i], sb);
  }

  // ---------------------------------------------------------------- the i-node map never fills

  ghost function FilesBelow(v: Vol, sb: SuperBlock, c: nat): set<int>
    requires OnGrid(v, sb)
  {
    set n | n in v.inodeMap && n > CMD_INODE && InUse(v, n) && FirstBit(sb, Rec(v, n)) < GRID + c * CELL
  }

  /** A cell holds at most one file. */
  lemma {:induction false} FewFiles(v: Vol, sb: SuperBlock, c: nat)
    requires OnGrid(v, sb)
    ensures |FilesBelow(v, sb, c)| <= c
  {
    var s := FilesBelow(v, sb, c);
    if c == 0 {
      assert forall n :: InUse(v, n) && n > CMD_INODE ==> HasCell(v, sb, n);
      assert s == {};
    } else {
      FewFiles(v, sb, c - 1);
      var t := FilesBelow(v, sb, c - 1);
      if x :| x in s && x !in t {
        forall n | n in s && n !in t ensures n == x {
          SameCell(v, sb, n, x, GRID + (c - 1) * CELL);
        }
        assert s == t + {x};
      } else {
        assert s == t;
      }
    }
  }

  lemma SameCell(v: Vol, sb: SuperBlock, n: int, m: int, lo: int)
    requires OnGrid(v, sb) && InUse(v, n) && InUse(v, m) && n > CMD_INODE && m > CMD_INODE && OnCell(lo)
    requires lo <= FirstBit(sb, Rec(v, n)) < lo + CELL && lo <= FirstBit(sb, Rec(v, m)) < lo + CELL
    ensures n == m
  {
    assert HasCell(v, sb, n) && HasCell(v, sb, m);
    CellsApart(lo, CellOf(FirstBit(sb, Rec(v, n))), FirstBit(sb, Rec(v, n)));
    CellsApart(lo, CellOf(FirstBit(sb, Rec(v, m))), FirstBit(sb, Rec(v, m)));
    assert InExtent(sb, Rec(v, n), lo) && InExtent(sb, Rec(v, m), lo);
  }

  /** At most 64 files fit below cmd.tar, so the numbers in use from 0 on are at most 70. */
  lemma Crowd(v: Vol, sb: SuperBlock, k: nat)
    requires OnGrid(v, sb) && k <= NR_RECORDS && forall n :: 0 <= n < k ==> n in v.inodeMap
    ensures k <= 70
  {
    if k > CMD_INODE {
      var files, some := FilesBelow(v, sb, 64), Range(CMD_INODE + 1, k - CMD_INODE - 1);
      FewFiles(v, sb, 64);
      forall n | n in some ensures n in files {
        assert n in v.inodeMap && InUse(v, n);
        assert HasCell(v, sb, n);
      }
      Card(CMD_INODE + 1, k - CMD_INODE - 1);
      Subset(some, files);
    }
  }

  /** So `alloc_imap_bit` always finds a number. */
  lemma NumbersLeft(v: Vol, sb: SuperBlock)
    requires OnGrid(v, sb)
    ensures !Full(v.inodeMap)
  {
    hide OnGrid;
    if forall n :: 0 <= n < NR_RECORDS ==> n in v.inodeMap { Crowd(v, sb, NR_RECORDS); }
  }

  lemma {:induction false} Card(lo: int, n: nat)
    ensures |Range(lo, n)| == n
  {
    if n > 0 {
      Card(lo, n - 1);
    }
  }

  lemma Subset(a: set<int>, b: set<int>)
    requires a <= b
    ensures |a| <= |b|
  {
    assert (b - a) + a == b;
  }
}
