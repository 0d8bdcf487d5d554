/** `mkfs` (fs/main.c:131-264): it writes both bitmaps, the first sector of the i-node array and the
    first sector of the root directory, and leaves a consistent file system on the grid. */
module MakeFs {
  import opened Const
  import opened BlockDevice
  import opened SectorMap
  import opened Words
  import opened Inodes
  import opened Directory
  import opened DirectoryMap
  import opened FileTable
  import opened Volume
  import opened UniformExtents
  import opened VolumeDisk
  import Super

  const TTY_DEV := 0x400

  /** The layout of a device of `nrSects` sectors (fs/main.c:149-155). */
  function LayoutOf(nrSects: nat): SuperBlock {
    var smap := nrSects / SECTOR_BITS + 1;
    SuperBlock(1, smap, 256, 1 + 1 + 1 + smap + 256)
  }

  /** The device as the code needs it: the root directory ends before cmd.tar begins. */
  predicate Suitable(dev: Disk, nrSects: nat) {
    dev.data.Length == nrSects * SECTOR_SIZE && NR_SECTS_FOR_LOG <= nrSects &&
    LayoutOf(nrSects).n1stSect + NR_DEFAULT_FILE_SECTS <= INSTALL_START_SECT
  }

  lemma LayoutFacts(nrSects: nat)
    requires INSTALL_START_SECT + INSTALL_NR_SECTS < nrSects - NR_SECTS_FOR_LOG
    requires LayoutOf(nrSects).n1stSect + NR_DEFAULT_FILE_SECTS <= INSTALL_START_SECT
    ensures var sb := LayoutOf(nrSects);
      OnDevice(sb, nrSects * SECTOR_SIZE) && GRID <= CmdBit(sb) && CmdBit(sb) + INSTALL_NR_SECTS <= MapBits(sb)
  {
  }

  /** Which devices leave a gap between the grid and cmd.tar. */
  lemma GapIff(nrSects: nat)
    ensures Gap(LayoutOf(nrSects)) <==> (nrSects / SECTOR_BITS + 1) % CELL != 253
  {
    var smap := nrSects / SECTOR_BITS + 1;
    assert CmdBit(LayoutOf(nrSects)) - GRID == 62 * CELL + 253 - smap;
  }

  // ---------------------------------------------------------------- the i-node map

  /** `fs/main.c:181-187`; the assertion on the first byte holds. */
  method InitImap(dev: Disk)
    requires dev.Valid() && dev.OnDisk(IMAP_SECT, 1)
    modifies dev.data, dev.fsbuf
    ensures dev.data[..] == Splice(old(dev.data[..]), IMAP_BASE, [0x3F] + Zeros(SECTOR_SIZE - 1))
  {
    PutZeros(dev, 0, SECTOR_SIZE);
    ghost var buf := dev.fsbuf[..];
    assert dev.fsbuf[0] == buf[0] == 0;
    var i := 0;
    while i < NR_CONSOLES + 3
      invariant 0 <= i <= 6 && dev.fsbuf[..] == buf[0 := dev.fsbuf[0]] && dev.data[..] == old(dev.data[..])
      invariant forall k :: 0 <= k < 8 ==> BitOf(dev.fsbuf[0], k) == (k < i)
    {
      WithBitBits(dev.fsbuf[0], i, true);
      dev.fsbuf[0] := WithBit(dev.fsbuf[0], i, true);
      i := i + 1;
    }
    SixBits(dev.fsbuf[0]);
    assert dev.fsbuf[0] == 0x3F;
    assert dev.fsbuf[..SECTOR_SIZE] == [0x3F] + Zeros(SECTOR_SIZE - 1);
    WriteSect(dev, IMAP_SECT, IMAP_BASE, 0);
  }

  lemma SixBits(b: byte)
    requires forall k :: 0 <= k < 8 ==> BitOf(b, k) == (k < 6)
    ensures b == 0x3F
  {
    assert BitOf(b, 0) && BitOf(b, 1) && BitOf(b, 2) && BitOf(b, 3) && BitOf(b, 4) && BitOf(b, 5);
    assert !BitOf(b, 6) && !BitOf(b, 7);
  }

  lemma SixBitsOf(k: nat)
    requires k < 8
    ensures BitOf(0x3F, k) == (k < 6) && BitOf(1, k) == (k == 0) && BitOf(0xFF, k) && !BitOf(0, k)
  {
  }

  lemma ImapBits(d: seq<byte>)
    requires IMAP_BASE + SECTOR_SIZE <= |d|
    ensures Bits(Splice(d, IMAP_BASE, [0x3F] + Zeros(SECTOR_SIZE - 1)), IMAP_BASE, SECTOR_SIZE) == Range(0, 6)
  {
    hide BitOf;
    var b := [0x3F] + Zeros(SECTOR_SIZE - 1);
    var e := Splice(d, IMAP_BASE, b);
    forall x ensures x in Bits(e, IMAP_BASE, SECTOR_SIZE) <==> x in Range(0, 6) {
      if 0 <= x < SECTOR_SIZE * 8 {
        assert e[IMAP_BASE + x / 8] == b[x / 8];
        SixBitsOf(x % 8);
      }
    }
  }

  // ---------------------------------------------------------------- the sector map

  /** Byte `y` of the sector map with only bit 0 and the root directory in it. */
  function RootByte(y: int): byte { if y < 64 then 0xFF else if y == 64 then 1 else 0 }

  /** fs/main.c:190-204. */
  method InitSmap(dev: Disk, sb: SuperBlock)
    requires dev.Valid() && sb.nrImapSects == 1 && sb.nrSmapSects > 0 && dev.OnDisk(sb.SmapSect(), sb.nrSmapSects)
    modifies dev.data, dev.fsbuf
    ensures forall p :: 0 <= p < dev.data.Length ==>
      dev.data[p] == (if InMap(sb, p) then RootByte(p - sb.SmapBase()) else old(dev.data[p]))
  {
    PutZeros(dev, 0, SECTOR_SIZE);
    FillRoot(dev);
    ghost var base := sb.SmapBase();
    WriteOut(dev, 2 + sb.nrImapSects);
    PutZeros(dev, 0, SECTOR_SIZE);
    BufferZero(dev.fsbuf[..], SECTOR_SIZE);
    ghost var d := dev.data[..];
    var i := 1;
    while i < sb.nrSmapSects
      invariant 1 <= i <= sb.nrSmapSects
      invariant forall k :: 0 <= k < SECTOR_SIZE ==> dev.fsbuf[k] == 0
      invariant forall p :: 0 <= p < |d| ==>
        dev.data[p] == if base + SECTOR_SIZE <= p < base + i * SECTOR_SIZE then 0 else d[p]
    {
      WriteOut(dev, 2 + sb.nrImapSects + i);
      i := i + 1;
    }
  }

  predicate InMap(sb: SuperBlock, p: int) { sb.SmapBase() <= p < sb.SmapBase() + sb.SmapBytes() }

  lemma BufferZero(buf: seq<byte>, n: nat)
    requires n <= |buf| && buf[..n] == Zeros(n)
    ensures forall k :: 0 <= k < n ==> buf[k] == 0
  {
    forall k | 0 <= k < n ensures buf[k] == 0 {
      assert buf[k] == buf[..n][k];
    }
  }

  /** `WR_SECT`, byte by byte. */
  method WriteOut(dev: Disk, s: nat)
    requires dev.Valid() && dev.OnDisk(s, 1)
    modifies dev.data
    ensures forall p :: 0 <= p < dev.data.Length ==>
      dev.data[p] == (if s * SECTOR_SIZE <= p < (s + 1) * SECTOR_SIZE
        then dev.fsbuf[p - s * SECTOR_SIZE] else old(dev.data[p]))
  {
    ghost var d := dev.data[..];
    dev.Write(s, 1);
    ghost var e := dev.data[..];
    forall p | 0 <= p < dev.data.Length
      ensures dev.data[p] == if s * SECTOR_SIZE <= p < (s + 1) * SECTOR_SIZE
        then dev.fsbuf[p - s * SECTOR_SIZE] else d[p]
    {
      assert dev.data[p] == e[p];
    }
  }

  /** The two loops over `nr_sects` (fs/main.c:191-197). */
  method FillRoot(dev: Disk)
    requires dev.Valid() && forall k :: 0 <= k < SECTOR_SIZE ==> dev.fsbuf[k] == 0
    modifies dev.fsbuf
    ensures forall k :: 0 <= k < SECTOR_SIZE ==> dev.fsbuf[k] == RootByte(k)
  {
    var nrSects := NR_DEFAULT_FILE_SECTS + 1;
    var i := 0;
    while i < nrSects / 8
      invariant 0 <= i <= 64
      invariant forall k :: 0 <= k < SECTOR_SIZE ==> dev.fsbuf[k] == if k < i then 0xFF else 0
    {
      dev.fsbuf[i] := 0xFF;
      i := i + 1;
    }
    var j := 0;
    while j < nrSects % 8
      invariant 0 <= j <= 1 && i == 64
      invariant forall k :: 0 <= k < SECTOR_SIZE && k != i ==> dev.fsbuf[k] == if k < i then 0xFF else 0
      invariant dev.fsbuf[i] == if j == 0 then 0 else 1
    {
      dev.fsbuf[i] := dev.fsbuf[i] | (1 << j);
      j := j + 1;
    }
  }

  lemma SmapBits(d: seq<byte>, base: nat, bytes: nat)
    requires base + bytes <= |d| && bytes >= SECTOR_SIZE
    requires forall p :: base <= p < base + bytes ==> d[p] == RootByte(p - base)
    ensures Bits(d, base, bytes) == Range(0, GRID)
  {
    hide BitOf;
    forall x ensures x in Bits(d, base, bytes) <==> x in Range(0, GRID) {
      if 0 <= x < bytes * 8 {
        assert d[base + x / 8] == RootByte(x / 8);
        SixBitsOf(x % 8);
      }
    }
  }

  // ---------------------------------------------------------------- cmd.tar

  /** Bit `b` is set in the buffered sector `i` (fs/main.c:214-215). */
  lemma MarkBit(d: seq<byte>, base: nat, i: nat, lo: nat, b: nat)
    requires base + (i + 1) * SECTOR_SIZE <= |d| && i * SECTOR_BITS <= b < (i + 1) * SECTOR_BITS && lo <= b
    requires ClearAt(d, base, b)
    ensures var buf, j := Sector(Paint(d, base, lo, b, true), base, i), b / 8 - i * SECTOR_SIZE;
      0 <= j < SECTOR_SIZE && buf[j := WithBit(buf[j], b % 8, true)] == Sector(Paint(d, base, lo, b + 1, true), base, i)
  {
    hide Paint, PaintByte, PaintLow, BitOf, WithBit;
    var buf, j := Sector(Paint(d, base, lo, b, true), base, i), b / 8 - i * SECTOR_SIZE;
    var y := i * SECTOR_SIZE + j;
    var b' := WithBit(buf[j], b % 8, true);
    assert buf[j] == PaintByte(d[base + y], y * 8, lo, b, true) by { PaintAt(d, base, lo, b, true, y); }
    PaintByteBits(d[base + y], y * 8, lo, b, true);
    WithBitBits(buf[j], b % 8, true);
    PaintByteIs(d[base + y], b', y * 8, lo, b + 1, true);
    StepByte(d, base, i, j, lo, b, lo, b + 1, true, b');
  }

  lemma PaintAt(d: seq<byte>, base: nat, lo: int, hi: int, v: bool, y: nat)
    requires base + y < |d|
    ensures Paint(d, base, lo, hi, v)[base + y] == PaintByte(d[base + y], y * 8, lo, hi, v)
  {
  }

  /** Where the loop stands: [lo, cur) is set, up to `hi` on disk and the rest in the buffer. */
  ghost predicate Marking(d: seq<byte>, data: seq<byte>, buf: seq<byte>, base: nat, i: int, lo: int, hi: int,
                          cur: int) {
    && 0 <= lo <= hi <= cur <= (i + 1) * SECTOR_BITS && 0 <= i && base + (i + 1) * SECTOR_SIZE <= |d|
    && (hi == cur || i * SECTOR_BITS <= hi)
    && data == Paint(d, base, lo, hi, true) && buf == Sector(Paint(d, base, lo, cur, true), base, i)
  }

  predicate ClearAt(d: seq<byte>, base: nat, b: nat) { base + b / 8 < |d| && !BitOf(d[base + b / 8], b % 8) }

  /** One turn of the loop (fs/main.c:214-217). */
  method MarkNext(dev: Disk, bit: nat, ghost d: seq<byte>, ghost base: nat, ghost i: nat, ghost lo: nat,
                  ghost hi: int, ghost cur: nat)
    requires dev.Valid() && bit < SECTOR_BITS && cur == i * SECTOR_BITS + bit
    requires Marking(d, dev.data[..], dev.fsbuf[..SECTOR_SIZE], base, i, lo, hi, cur) && ClearAt(d, base, cur)
    modifies dev.fsbuf
    ensures Marking(d, dev.data[..], dev.fsbuf[..SECTOR_SIZE], base, i, lo, hi, cur + 1)
  {
    hide Paint, Sector, BitOf, WithBit, ClearAt;
    MarkBit(d, base, i, lo, cur);
    ghost var buf := dev.fsbuf[..SECTOR_SIZE];
    var byteOff := bit / 8;
    dev.fsbuf[byteOff] := WithBit(dev.fsbuf[byteOff], bit % 8, true);
    assert dev.fsbuf[..SECTOR_SIZE] == buf[byteOff := dev.fsbuf[byteOff]];
    assert cur / 8 - i * SECTOR_SIZE == byteOff && cur % 8 == bit % 8;
  }

  /** The buffered sector back to disk, with everything marked so far. */
  method MarkFlush(dev: Disk, s: nat, ghost d: seq<byte>, ghost base: nat, ghost i: nat, ghost lo: nat,
                   ghost hi: int, ghost cur: nat)
    requires dev.Valid() && dev.OnDisk(s, 1) && s * SECTOR_SIZE == base + i * SECTOR_SIZE
    requires Marking(d, dev.data[..], dev.fsbuf[..SECTOR_SIZE], base, i, lo, hi, cur)
    modifies dev.data
    ensures dev.data[..] == Paint(d, base, lo, cur, true)
  {
    hide Paint, Sector, Splice;
    WriteSect(dev, s, base, i);
    Flush(d, base, i, lo, hi, lo, cur, true);
  }

  /** The loop of fs/main.c:208-225 over `n` bits from `first` on. */
  method MarkCmd(dev: Disk, sb: SuperBlock, first: nat, n: nat)
    requires dev.Valid() && sb.Layout(dev.data.Length) && first + n < sb.SmapBytes() * 8
    requires forall b :: first <= b < first + n ==> ClearAt(dev.data[..], sb.SmapBase(), b)
    modifies dev.data, dev.fsbuf
    ensures dev.data[..] == Paint(old(dev.data[..]), sb.SmapBase(), first, first + n, true)
  {
    hide Paint, Sector, ClearAt;
    ghost var d, base, hi, cur := dev.data[..], sb.SmapBase(), first, first;
    var bitOffInSect, bitLeft, curSect := first % SECTOR_BITS, n, first / SECTOR_BITS;
    PaintNothing(d, base, first, first, true);
    ReadSect(dev, 2 + sb.nrImapSects + curSect, base, curSect);
    while bitLeft > 0
      invariant cur + bitLeft == first + n && cur == curSect * SECTOR_BITS + bitOffInSect
        && 0 <= bitOffInSect < SECTOR_BITS
      invariant Marking(d, dev.data[..], dev.fsbuf[..SECTOR_SIZE], base, curSect, first, hi, cur)
    {
      MarkNext(dev, bitOffInSect, d, base, curSect, first, hi, cur);
      cur, bitLeft, bitOffInSect := cur + 1, bitLeft - 1, bitOffInSect + 1;
      if bitOffInSect == SECTOR_BITS {
        MarkFlush(dev, 2 + sb.nrImapSects + curSect, d, base, curSect, first, hi, cur);
        curSect, hi, bitOffInSect := curSect + 1, cur, 0;
        ReadSect(dev, 2 + sb.nrImapSects + curSect, base, curSect);
      }
    }
    MarkFlush(dev, 2 + sb.nrImapSects + curSect, d, base, curSect, first, hi, cur);
  }

  // ---------------------------------------------------------------- the i-nodes

  /** The record that `mkfs` gives i-node `num` (fs/main.c:228-247). */
  function InitialRecord(sb: SuperBlock, num: nat): Inode
    requires sb.n1stSect < WORD
  {
    if num == ROOT_INODE then Inode(I_DIRECTORY, 5 * DIR_ENTRY_SIZE, sb.n1stSect, NR_DEFAULT_FILE_SECTS)
    else if 1 < num <= NR_CONSOLES + 1 then Inode(I_CHAR_SPECIAL, 0, TTY_DEV + num - 2, 0)
    else if num == CMD_INODE then Inode(I_REGULAR, INSTALL_NR_SECTS * SECTOR_SIZE, INSTALL_START_SECT, INSTALL_NR_SECTS)
    else NO_RECORD
  }

  /** The first `done` records of the buffer are in place and the others are zero. */
  ghost predicate RecordsUpTo(buf: seq<byte>, sb: SuperBlock, done: nat)
    requires |buf| >= SECTOR_SIZE && sb.n1stSect < WORD
  {
    forall k :: 0 <= k < INODES_PER_SECT ==>
      InodeAt(buf, k * INODE_SIZE) == if k < done then InitialRecord(sb, k + 1) else NO_RECORD
  }

  lemma ZeroRecords(buf: seq<byte>, sb: SuperBlock)
    requires |buf| >= SECTOR_SIZE && sb.n1stSect < WORD && forall k :: 0 <= k < SECTOR_SIZE ==> buf[k] == 0
    ensures RecordsUpTo(buf, sb, 0)
  {
    hide ByteVal;
    ZeroByte();
    forall k | 0 <= k < INODES_PER_SECT ensures InodeAt(buf, k * INODE_SIZE) == NO_RECORD {
      ZeroRecord(buf, k * INODE_SIZE);
    }
  }

  lemma ZeroRecord(buf: seq<byte>, p: nat)
    requires p + RECORD_SIZE <= |buf| && forall q :: p <= q < p + RECORD_SIZE ==> buf[q] == 0
    ensures InodeAt(buf, p) == NO_RECORD
  {
    hide ByteVal;
    ZeroByte();
  }

  lemma NextRecord(buf: seq<byte>, sb: SuperBlock, done: nat)
    requires |buf| >= SECTOR_SIZE && sb.n1stSect < WORD && RecordsUpTo(buf, sb, done) && done < INODES_PER_SECT
    ensures RecordsUpTo(Splice(buf, done * INODE_SIZE, InodeBytes(InitialRecord(sb, done + 1))), sb, done + 1)
  {
    hide InodeAt, InodeBytes, Splice, InitialRecord;
    var x := InitialRecord(sb, done + 1);
    var r := Splice(buf, done * INODE_SIZE, InodeBytes(x));
    forall k | 0 <= k < INODES_PER_SECT
      ensures InodeAt(r, k * INODE_SIZE) == if k < done + 1 then InitialRecord(sb, k + 1) else NO_RECORD
    {
      if k == done {
        InodeRound(buf, k * INODE_SIZE, x);
      } else {
        InodeApart(buf, k * INODE_SIZE, done * INODE_SIZE, InodeBytes(x));
      }
    }
  }

  /** fs/main.c:228-247, in the buffer. */
  method FillInodes(dev: Disk, sb: SuperBlock)
    requires dev.Valid() && sb.n1stSect < WORD
    modifies dev.fsbuf
    ensures RecordsUpTo(dev.fsbuf[..], sb, INODES_PER_SECT)
  {
    hide InodeAt, InodeBytes, Splice, RecordsUpTo;
    PutZeros(dev, 0, SECTOR_SIZE);
    AllZero(dev.fsbuf[..]);
    ZeroRecords(dev.fsbuf[..], sb);
    NextRecord(dev.fsbuf[..], sb, 0);
    PutInode(dev, 0, Inode(I_DIRECTORY, DIR_ENTRY_SIZE * 5, sb.n1stSect, NR_DEFAULT_FILE_SECTS));
    var i := 0;
    while i < NR_CONSOLES
      invariant 0 <= i <= NR_CONSOLES && RecordsUpTo(dev.fsbuf[..], sb, i + 1)
    {
      NextRecord(dev.fsbuf[..], sb, i + 1);
      PutInode(dev, INODE_SIZE * (i + 1), Inode(I_CHAR_SPECIAL, 0, TTY_DEV + i, 0));
      i := i + 1;
    }
    NextRecord(dev.fsbuf[..], sb, NR_CONSOLES + 1);
    PutInode(dev, INODE_SIZE * (NR_CONSOLES + 1),
             Inode(I_REGULAR, INSTALL_NR_SECTS * SECTOR_SIZE, INSTALL_START_SECT, INSTALL_NR_SECTS));
    RestEmpty(dev.fsbuf[..], sb);
  }

  lemma AllZero(buf: seq<byte>)
    requires |buf| >= SECTOR_SIZE && exists was :: |was| == |buf| && buf == Splice(was, 0, Zeros(SECTOR_SIZE))
    ensures forall k :: 0 <= k < SECTOR_SIZE ==> buf[k] == 0
  {
  }

  lemma RestEmpty(buf: seq<byte>, sb: SuperBlock)
    requires |buf| >= SECTOR_SIZE && sb.n1stSect < WORD && RecordsUpTo(buf, sb, CMD_INODE)
    ensures RecordsUpTo(buf, sb, INODES_PER_SECT)
  {
    hide InodeAt;
  }

  // ---------------------------------------------------------------- the directory

  const DOT: seq<byte> := [0x2E]
  const DEV_TTY: seq<byte> := [0x64, 0x65, 0x76, 0x5F, 0x74, 0x74, 0x79]
  const CMD_TAR: seq<byte> := [0x63, 0x6D, 0x64, 0x2E, 0x74, 0x61, 0x72]

  /** The name of entry `m` (fs/main.c:254-262). */
  function InitialName(m: nat): (n: seq<byte>)
    requires m < 5
    ensures ProperName(n) && |n| < MAX_FILENAME_LEN
  {
    if m == 0 then DOT else if m == 4 then CMD_TAR else DEV_TTY + [0x30 + (m - 1) as byte]
  }

  function InitialSlot(m: nat): Slot { if m < 5 then Slot(m + 1, Pad(InitialName(m))) else EMPTY }

  ghost predicate SlotsUpTo(buf: seq<byte>, done: nat)
    requires |buf| >= SECTOR_SIZE
  {
    forall k :: 0 <= k < SLOTS_PER_SECT ==> SlotAt(buf, 0, k) == if k < done then InitialSlot(k) else EMPTY
  }

  lemma ZeroSlots(buf: seq<byte>)
    requires |buf| >= SECTOR_SIZE && forall k :: 0 <= k < SECTOR_SIZE ==> buf[k] == 0
    ensures SlotsUpTo(buf, 0)
  {
    hide WordAt;
    forall k | 0 <= k < SLOTS_PER_SECT ensures SlotAt(buf, 0, k) == EMPTY {
      ZeroWordAt(buf, k * DIR_ENTRY_SIZE);
      assert SlotAt(buf, 0, k).name == Zeros(MAX_FILENAME_LEN);
    }
  }

  lemma ZeroWordAt(buf: seq<byte>, p: nat)
    requires p + 4 <= |buf| && buf[p] == buf[p + 1] == buf[p + 2] == buf[p + 3] == 0
    ensures WordAt(buf, p) == 0
  {
    hide ByteVal;
    ZeroByte();
  }

  /** A number and a name over an empty slot of the buffer. */
  lemma NextSlot(buf: seq<byte>, done: nat)
    requires |buf| >= SECTOR_SIZE && SlotsUpTo(buf, done) && done < 5
    ensures done * DIR_ENTRY_SIZE + 4 + |InitialName(done)| + 1 <= |buf|
    ensures SlotsUpTo(Splice(buf, done * DIR_ENTRY_SIZE, WordBytes(done + 1) + (InitialName(done) + [0])), done + 1)
  {
    hide SlotAt, WordBytes, InitialName, Pad;
    var name := InitialName(done);
    var b := WordBytes(done + 1) + (name + [0]);
    var r := Splice(buf, done * DIR_ENTRY_SIZE, b);
    forall k | 0 <= k < SLOTS_PER_SECT ensures SlotAt(r, 0, k) == if k < done + 1 then InitialSlot(k) else EMPTY {
      if k == done { SlotFilled(buf, k, done + 1, name); } else { SlotSame(r, buf, 0, k); }
    }
  }

  lemma SlotFilled(buf: seq<byte>, k: nat, nr: word, name: seq<byte>)
    requires k < SLOTS_PER_SECT && |buf| >= SECTOR_SIZE && SlotAt(buf, 0, k) == EMPTY && |name| < MAX_FILENAME_LEN
    ensures SlotAt(Splice(buf, k * DIR_ENTRY_SIZE, WordBytes(nr) + (name + [0])), 0, k) == Slot(nr, Pad(name))
  {
    hide WordAt, WordBytes;
    var p, b := k * DIR_ENTRY_SIZE, WordBytes(nr) + (name + [0]);
    var r := Splice(buf, p, b);
    assert r[p..p + 4] == WordBytes(nr);
    WordIn(r, p, nr);
    var n, m := SlotAt(buf, 0, k).name, SlotAt(r, 0, k).name;
    forall j | 0 <= j < MAX_FILENAME_LEN ensures m[j] == Pad(name)[j] {
      assert n[j] == buf[p + 4 + j] && n[j] == Zeros(MAX_FILENAME_LEN)[j];
      assert m[j] == r[p + 4 + j];
    }
  }

  /** fs/main.c:251-262, in the buffer. */
  method FillDir(dev: Disk)
    requires dev.Valid()
    modifies dev.fsbuf
    ensures SlotsUpTo(dev.fsbuf[..], SLOTS_PER_SECT)
  {
    hide SlotAt, WordBytes, Splice, SlotsUpTo;
    PutZeros(dev, 0, SECTOR_SIZE);
    AllZero(dev.fsbuf[..]);
    ZeroSlots(dev.fsbuf[..]);
    NextSlot(dev.fsbuf[..], 0);
    PutEntry(dev, 0, 1, DOT);
    var i := 0;
    while i < NR_CONSOLES
      invariant 0 <= i <= NR_CONSOLES && SlotsUpTo(dev.fsbuf[..], i + 1)
    {
      NextSlot(dev.fsbuf[..], i + 1);
      PutEntry(dev, i + 1, i + 2, DEV_TTY + [0x30 + i as byte]);
      i := i + 1;
    }
    NextSlot(dev.fsbuf[..], NR_CONSOLES + 1);
    PutEntry(dev, NR_CONSOLES + 1, NR_CONSOLES + 2, CMD_TAR);
    RestFree(dev.fsbuf[..]);
  }

  lemma RestFree(buf: seq<byte>)
    requires |buf| >= SECTOR_SIZE && SlotsUpTo(buf, 5)
    ensures SlotsUpTo(buf, SLOTS_PER_SECT)
  {
    hide SlotAt;
  }

  // ---------------------------------------------------------------- mkfs

  /** The four parts that `mkfs` leaves on the disk. */
  ghost predicate MadeVol(v: Vol, sb: SuperBlock) {
    && |v.recs| == NR_RECORDS && |v.slots| == DIR_SLOTS && sb.n1stSect < WORD && 0 <= CmdBit(sb)
    && v.inodeMap == Range(0, 6) && v.sectMap == Range(0, GRID) + Range(CmdBit(sb), INSTALL_NR_SECTS)
    && (forall k :: 0 <= k < INODES_PER_SECT ==> v.recs[k] == InitialRecord(sb, k + 1))
    && (forall m :: 0 <= m < SLOTS_PER_SECT ==> v.slots[m] == InitialSlot(m))
  }

  ghost predicate Made(d: seq<byte>, sb: SuperBlock)
    requires OnDevice(sb, |d|)
  {
    MadeVol(VolAt(d, sb), sb)
  }

  /** Both bitmaps (fs/main.c:180-225). */
  method InitMaps(dev: Disk, nrSects: nat, sb: SuperBlock) returns (ok: bool)
    requires dev.Valid() && Suitable(dev, nrSects) && sb == LayoutOf(nrSects)
    modifies dev.data, dev.fsbuf
    ensures ok <==> INSTALL_START_SECT + INSTALL_NR_SECTS < nrSects - NR_SECTS_FOR_LOG
    ensures ok ==> OnDevice(sb, dev.data.Length) && var v := VolAt(dev.data[..], sb);
      v.inodeMap == Range(0, 6) && 0 <= CmdBit(sb) && v.sectMap == Range(0, GRID) + Range(CmdBit(sb), INSTALL_NR_SECTS)
    ensures ok ==> Agree(dev.data[..], old(dev.data[..]), InodeSect(sb) * SECTOR_SIZE, dev.data.Length)
    ensures ok ==> Agree(dev.data[..], old(dev.data[..]), 0, IMAP_BASE)
  {
    hide Paint, Bits, Records, Slots, Splice;
    ghost var d := dev.data[..];
    InitImap(dev);
    ghost var d1 := dev.data[..];
    InitSmap(dev, sb);
    ghost var d2 := dev.data[..];
    ok := INSTALL_START_SECT + INSTALL_NR_SECTS < nrSects - NR_SECTS_FOR_LOG;
    if !ok {
      return;
    }
    LayoutFacts(nrSects);
    MapsSoFar(d, d1, d2, sb);
    CmdClear(d1, d2, sb);
    MarkCmd(dev, sb, INSTALL_START_SECT - sb.n1stSect + 1, INSTALL_NR_SECTS);
    PaintSmap(d2, sb, CmdBit(sb), INSTALL_NR_SECTS, true);
    PaintAgrees(d2, sb.SmapBase(), sb.SmapBytes(), CmdBit(sb), CmdBit(sb) + INSTALL_NR_SECTS, true,
                InodeSect(sb) * SECTOR_SIZE, |d|);
    FrontKept(d, d1, d2, sb);
    PaintAgrees(d2, sb.SmapBase(), sb.SmapBytes(), CmdBit(sb), CmdBit(sb) + INSTALL_NR_SECTS, true, 0, IMAP_BASE);
  }

  lemma FrontKept(d: seq<byte>, d1: seq<byte>, d2: seq<byte>, sb: SuperBlock)
    requires OnDevice(sb, |d|) && d1 == Splice(d, IMAP_BASE, [0x3F] + Zeros(SECTOR_SIZE - 1)) && |d2| == |d|
    requires forall p :: 0 <= p < |d| ==> d2[p] == if InMap(sb, p) then RootByte(p - sb.SmapBase()) else d1[p]
    ensures Agree(d2, d, 0, IMAP_BASE)
  {
  }

  lemma MapsSoFar(d: seq<byte>, d1: seq<byte>, d2: seq<byte>, sb: SuperBlock)
    requires OnDevice(sb, |d|) && d1 == Splice(d, IMAP_BASE, [0x3F] + Zeros(SECTOR_SIZE - 1)) && |d2| == |d|
      && GRID <= CmdBit(sb)
    requires forall p :: 0 <= p < |d| ==> d2[p] == if InMap(sb, p) then RootByte(p - sb.SmapBase()) else d1[p]
    ensures VolAt(d2, sb).inodeMap == Range(0, 6) && VolAt(d2, sb).sectMap == Range(0, GRID)
    ensures Agree(d2, d, InodeSect(sb) * SECTOR_SIZE, |d|)
  {
    hide Bits, Records, Slots, Splice, Agree;
    ImapBits(d);
    assert Agree(d1, d2, IMAP_BASE, IMAP_BASE + SECTOR_SIZE) && Agree(d2, d, InodeSect(sb) * SECTOR_SIZE, |d|) by {
      MapsApart(d, d1, d2, sb);
    }
    BitsAgree(d1, d2, IMAP_BASE, SECTOR_SIZE);
    SmapBits(d2, sb.SmapBase(), sb.SmapBytes());
  }

  lemma MapsApart(d: seq<byte>, d1: seq<byte>, d2: seq<byte>, sb: SuperBlock)
    requires OnDevice(sb, |d|) && d1 == Splice(d, IMAP_BASE, [0x3F] + Zeros(SECTOR_SIZE - 1)) && |d2| == |d|
    requires forall p :: 0 <= p < |d| ==> d2[p] == if InMap(sb, p) then RootByte(p - sb.SmapBase()) else d1[p]
    ensures Agree(d1, d2, IMAP_BASE, IMAP_BASE + SECTOR_SIZE) && Agree(d2, d, InodeSect(sb) * SECTOR_SIZE, |d|)
  {
  }

  lemma CmdClear(d1: seq<byte>, d2: seq<byte>, sb: SuperBlock)
    requires OnDevice(sb, |d2|) && |d1| == |d2| && GRID <= CmdBit(sb)
    requires forall p :: 0 <= p < |d2| ==> d2[p] == if InMap(sb, p) then RootByte(p - sb.SmapBase()) else d1[p]
    ensures forall b :: CmdBit(sb) <= b < sb.SmapBytes() * 8 ==> ClearAt(d2, sb.SmapBase(), b)
  {
    hide BitOf;
    forall b | CmdBit(sb) <= b < sb.SmapBytes() * 8 ensures ClearAt(d2, sb.SmapBase(), b) {
      var p := sb.SmapBase() + b / 8;
      assert InMap(sb, p) && d2[p] == RootByte(b / 8);
      SixBitsOf(b % 8);
    }
  }

  /** `mkfs`, on a device that suits it: it fails its assertion when there is no room for cmd.tar and the
      log. `stale` is what its stack holds where one field of the super block is never assigned. */
  method Mkfs(dev: Disk, nrSects: nat, stale: word) returns (ok: bool, sb: SuperBlock)
    requires dev.Valid() && Suitable(dev, nrSects)
    modifies dev.data, dev.fsbuf
    ensures sb == LayoutOf(nrSects) && (ok <==> INSTALL_START_SECT + INSTALL_NR_SECTS < nrSects - NR_SECTS_FOR_LOG)
    ensures ok ==> OnDevice(sb, dev.data.Length) && Made(dev.data[..], sb)
    ensures ok ==> Agree(dev.data[..], old(dev.data[..]), (sb.n1stSect + 1) * SECTOR_SIZE, dev.data.Length)
    ensures ok ==> Super.Fits(sb) && nrSects < WORD
    ensures ok ==> Super.Holds(dev.data[..], Super.SUPER_BASE, Super.Fields(sb, nrSects, stale))
  {
    hide VolAt, Splice, Sector, Agree, SlotsUpTo, RecordsUpTo, InitialRecord, InitialSlot, Range, CmdBit, Super.Holds;
    hide Super.Fields;
    ghost var d := dev.data[..];
    sb := LayoutOf(nrSects);
    LayoutFits(nrSects);
    Super.WriteSuper(dev, sb, nrSects, stale);
    ghost var d1 := dev.data[..];
    ok := InitMaps(dev, nrSects, sb);
    if !ok {
      return;
    }
    ghost var d2 := dev.data[..];
    FillInodes(dev, sb);
    WriteSect(dev, InodeSect(sb), 0, InodeSect(sb));
    ghost var d3 := dev.data[..];
    InodesWritten(d2, sb, dev.fsbuf[..]);
    FillDir(dev);
    WriteSect(dev, sb.n1stSect, 0, sb.n1stSect);
    DirWritten(d3, sb, dev.fsbuf[..]);
    RestUntouched(d, d1, d2, d3, dev.data[..], sb);
    FrontUntouched(d1, d2, d3, dev.data[..], sb);
    Super.HoldsStill(d1, dev.data[..], Super.Fields(sb, nrSects, stale));
    VolShape(dev.data[..], sb);
  }

  lemma LayoutFits(nrSects: nat)
    requires LayoutOf(nrSects).n1stSect + NR_DEFAULT_FILE_SECTS <= INSTALL_START_SECT
    ensures Super.Fits(LayoutOf(nrSects)) && nrSects < WORD
  {
  }

  lemma VolShape(d: seq<byte>, sb: SuperBlock)
    requires OnDevice(sb, |d|)
    ensures |VolAt(d, sb).recs| == NR_RECORDS && |VolAt(d, sb).slots| == DIR_SLOTS
  {
  }

  lemma InodesWritten(d: seq<byte>, sb: SuperBlock, buf: seq<byte>)
    requires OnDevice(sb, |d|) && |buf| >= SECTOR_SIZE && RecordsUpTo(buf, sb, INODES_PER_SECT)
    ensures var e := Splice(d, InodeSect(sb) * SECTOR_SIZE, buf[..SECTOR_SIZE]);
      && VolAt(e, sb).inodeMap == VolAt(d, sb).inodeMap && VolAt(e, sb).sectMap == VolAt(d, sb).sectMap
      && (forall k :: 0 <= k < INODES_PER_SECT ==> VolAt(e, sb).recs[k] == InitialRecord(sb, k + 1))
      && Agree(e, d, sb.n1stSect * SECTOR_SIZE, |d|) && Agree(e, d, 0, IMAP_BASE)
  {
    hide Bits, Records, Slots, InodeAt, InitialRecord;
    var at := InodeSect(sb) * SECTOR_SIZE;
    var e := Splice(d, at, buf[..SECTOR_SIZE]);
    BitsAgree(e, d, IMAP_BASE, SECTOR_SIZE);
    BitsAgree(e, d, sb.SmapBase(), sb.SmapBytes());
    forall k | 0 <= k < INODES_PER_SECT ensures Records(e, sb)[k] == InitialRecord(sb, k + 1) {
      RecordIs(e, sb, k + 1);
      var p, q := InodeOff(sb, k + 1), k * INODE_SIZE;
      assert e[p..p + RECORD_SIZE] == buf[q..q + RECORD_SIZE];
      InodeSame(e, p, buf, q);
    }
  }

  lemma DirWritten(d: seq<byte>, sb: SuperBlock, buf: seq<byte>)
    requires OnDevice(sb, |d|) && |buf| >= SECTOR_SIZE && SlotsUpTo(buf, SLOTS_PER_SECT)
    ensures var e := Splice(d, sb.n1stSect * SECTOR_SIZE, buf[..SECTOR_SIZE]);
      && VolAt(e, sb).inodeMap == VolAt(d, sb).inodeMap && VolAt(e, sb).sectMap == VolAt(d, sb).sectMap
      && VolAt(e, sb).recs == VolAt(d, sb).recs
      && (forall m :: 0 <= m < SLOTS_PER_SECT ==> VolAt(e, sb).slots[m] == InitialSlot(m))
      && Agree(e, d, (sb.n1stSect + 1) * SECTOR_SIZE, |d|) && Agree(e, d, 0, IMAP_BASE)
  {
    hide Bits, Records, Slots, SlotAt, InitialSlot, Splice;
    var e := Splice(d, sb.n1stSect * SECTOR_SIZE, buf[..SECTOR_SIZE]);
    SpliceDir(d, sb, sb.n1stSect * SECTOR_SIZE, buf[..SECTOR_SIZE]);
    assert buf[..SECTOR_SIZE] == Sector(e, 0, sb.n1stSect) by { SpliceBack(d, sb.n1stSect, buf[..SECTOR_SIZE]); }
    SpliceAgrees(d, sb.n1stSect * SECTOR_SIZE, buf[..SECTOR_SIZE], (sb.n1stSect + 1) * SECTOR_SIZE, |d|);
    SpliceAgrees(d, sb.n1stSect * SECTOR_SIZE, buf[..SECTOR_SIZE], 0, IMAP_BASE);
    forall m | 0 <= m < SLOTS_PER_SECT ensures Slots(e, sb.n1stSect)[m] == InitialSlot(m) {
      SlotInBuffer(e, buf, sb.n1stSect, 0, m);
    }
  }

  lemma SpliceBack(d: seq<byte>, s: nat, b: seq<byte>)
    requires (s + 1) * SECTOR_SIZE <= |d| && |b| == SECTOR_SIZE
    ensures Sector(Splice(d, s * SECTOR_SIZE, b), 0, s) == b
  {
  }

  lemma FrontUntouched(d1: seq<byte>, d2: seq<byte>, d3: seq<byte>, d4: seq<byte>, sb: SuperBlock)
    requires Agree(d2, d1, 0, IMAP_BASE) && Agree(d3, d2, 0, IMAP_BASE) && Agree(d4, d3, 0, IMAP_BASE)
    ensures Agree(d4, d1, 0, IMAP_BASE)
  {
  }

  lemma RestUntouched(d: seq<byte>, d1: seq<byte>, d2: seq<byte>, d3: seq<byte>, d4: seq<byte>, sb: SuperBlock)
    requires OnDevice(sb, |d|) && Agree(d1, d, IMAP_BASE, |d|) && Agree(d2, d1, InodeSect(sb) * SECTOR_SIZE, |d|)
    requires Agree(d3, d2, sb.n1stSect * SECTOR_SIZE, |d|) && Agree(d4, d3, (sb.n1stSect + 1) * SECTOR_SIZE, |d|)
    ensures Agree(d4, d, (sb.n1stSect + 1) * SECTOR_SIZE, |d|)
  {
  }

  lemma MadeRecords(v: Vol, sb: SuperBlock)
    requires MadeVol(v, sb)
    ensures forall n :: InUse(v, n) <==> 1 <= n <= CMD_INODE
    ensures forall n :: 1 <= n <= CMD_INODE ==> Rec(v, n) == InitialRecord(sb, n)
    ensures ImapOk(v, sb) && Entries(v) == 5
  {
    forall n | 1 <= n <= CMD_INODE ensures Rec(v, n) == InitialRecord(sb, n) {
      assert v.recs[n - 1] == InitialRecord(sb, n - 1 + 1);
    }
    assert Rec(v, ROOT_INODE) == InitialRecord(sb, ROOT_INODE);
  }

  /** The extents after `mkfs`: the root directory's and cmd.tar's. */
  lemma MadeOwners(v: Vol, sb: SuperBlock)
    requires MadeVol(v, sb) && Geometry(sb) && GRID <= CmdBit(sb)
    ensures forall n, b :: InUse(v, n) && InExtent(sb, Rec(v, n), b) <==>
      (n == ROOT_INODE && 1 <= b < GRID) || (n == CMD_INODE && CmdBit(sb) <= b < CmdBit(sb) + INSTALL_NR_SECTS)
    ensures forall n :: InUse(v, n) && Rec(v, n).nrSects > 0 ==> n == ROOT_INODE || n == CMD_INODE
    ensures forall n :: InUse(v, n) && Rec(v, n).mode == I_REGULAR ==> n == CMD_INODE
    ensures InUse(v, ROOT_INODE) && FirstBit(sb, Rec(v, ROOT_INODE)) == 1 && Rec(v, ROOT_INODE).nrSects == GRID - 1
    ensures InUse(v, CMD_INODE) && FirstBit(sb, Rec(v, CMD_INODE)) == CmdBit(sb)
      && Rec(v, CMD_INODE).nrSects == INSTALL_NR_SECTS
  {
    hide MadeVol, ImapOk;
    MadeRecords(v, sb);
  }

  lemma MadeExtents(v: Vol, sb: SuperBlock)
    requires MadeVol(v, sb) && Geometry(sb) && GRID <= CmdBit(sb) && CmdBit(sb) + INSTALL_NR_SECTS <= MapBits(sb)
    ensures ExtentsOk(v, sb)
  {
    hide MadeVol, InExtent, FirstBit, InUse;
    MadeOwners(v, sb);
  }

  lemma MadeSmap(v: Vol, sb: SuperBlock)
    requires MadeVol(v, sb) && Geometry(sb) && GRID <= CmdBit(sb)
    ensures SmapExact(v, sb)
  {
    hide MadeVol, InExtent, FirstBit;
    assert v.sectMap == Range(0, GRID) + Range(CmdBit(sb), INSTALL_NR_SECTS) by { MadeMap(v, sb); }
    MadeOwners(v, sb);
    forall b | b in v.sectMap && b != 0 ensures exists n :: InUse(v, n) && InExtent(sb, Rec(v, n), b) {
      assert if b < GRID then InUse(v, ROOT_INODE) && InExtent(sb, Rec(v, ROOT_INODE), b)
             else InUse(v, CMD_INODE) && InExtent(sb, Rec(v, CMD_INODE), b);
    }
  }

  lemma MadeMap(v: Vol, sb: SuperBlock)
    requires MadeVol(v, sb)
    ensures v.sectMap == Range(0, GRID) + Range(CmdBit(sb), INSTALL_NR_SECTS)
  {
  }

  lemma MadeNames(v: Vol, sb: SuperBlock)
    requires MadeVol(v, sb) && forall m :: 0 <= m < DIR_SLOTS ==> |v.slots[m].name| == MAX_FILENAME_LEN
    ensures NamesOk(v)
  {
    hide Pad, InitialName;
    MadeRecords(v, sb);
    assert forall m :: 0 <= m < 5 ==> v.slots[m].nr == m + 1;
  }

  /** What `mkfs` leaves is consistent, and starts every run on the grid. */
  lemma MadeOnGrid(d: seq<byte>, sb: SuperBlock)
    requires OnDevice(sb, |d|) && Made(d, sb) && GRID <= CmdBit(sb) && CmdBit(sb) + INSTALL_NR_SECTS <= MapBits(sb)
    ensures OnGrid(VolAt(d, sb), sb)
  {
    hide MadeVol, VolAt, ImapOk, ExtentsOk, SmapExact, NamesOk;
    var v := VolAt(d, sb);
    MadeRecords(v, sb);
    MadeExtents(v, sb);
    MadeSmap(v, sb);
    SlotNames(d, sb);
    MadeNames(v, sb);
  }

  lemma SlotNames(d: seq<byte>, sb: SuperBlock)
    requires OnDevice(sb, |d|)
    ensures |VolAt(d, sb).slots| == DIR_SLOTS
      && forall m :: 0 <= m < DIR_SLOTS ==> |VolAt(d, sb).slots[m].name| == MAX_FILENAME_LEN
  {
    hide Bits, Records, WordAt;
  }

  lemma NamesDiffer(m: nat, k: nat)
    requires m < k < 5
    ensures Pad(InitialName(m)) != Pad(InitialName(k))
  {
    assert Pad(InitialName(m))[0] == InitialName(m)[0] && Pad(InitialName(k))[0] == InitialName(k)[0];
    if 0 < m && k < 4 {
      assert Pad(InitialName(m))[7] == (0x30 + (m - 1) as byte) && Pad(InitialName(k))[7] == (0x30 + (k - 1) as byte);
    }
  }

  // ---------------------------------------------------------------- the rest of the directory

  /** The directory's extent behind its first sector, which `mkfs` does not write, is zero. */
  ghost predicate Cleared(d: seq<byte>, sb: SuperBlock)
    requires OnDevice(sb, |d|)
  {
    forall p :: (sb.n1stSect + 1) * SECTOR_SIZE <= p < (sb.n1stSect + NR_DEFAULT_FILE_SECTS) * SECTOR_SIZE ==> d[p] == 0
  }

  lemma ZeroByteIff(b: byte)
    ensures ByteVal(b) == 0 <==> b == 0
  {
    ByteBack(b);
    ByteBack(0);
    assert ByteVal(0) == 0;
  }

  lemma WordZeroIff(d: seq<byte>, p: nat)
    requires p + 4 <= |d|
    ensures WordAt(d, p) == 0 <==> d[p] == 0 && d[p + 1] == 0 && d[p + 2] == 0 && d[p + 3] == 0
  {
    hide ByteVal;
    ZeroByteIff(d[p]);
    ZeroByteIff(d[p + 1]);
    ZeroByteIff(d[p + 2]);
    ZeroByteIff(d[p + 3]);
  }

  lemma EmptyIff(d: seq<byte>, base: nat, m: nat)
    requires base + (m + 1) * DIR_ENTRY_SIZE <= |d|
    ensures SlotAt(d, base, m) == EMPTY <==>
      forall q :: base + m * DIR_ENTRY_SIZE <= q < base + (m + 1) * DIR_ENTRY_SIZE ==> d[q] == 0
  {
    hide WordAt;
    var p := base + m * DIR_ENTRY_SIZE;
    WordZeroIff(d, p);
    var n := d[p + 4..p + DIR_ENTRY_SIZE];
    assert forall q :: p + 4 <= q < p + DIR_ENTRY_SIZE ==> d[q] == n[q - p - 4];
    if forall k :: 0 <= k < MAX_FILENAME_LEN ==> n[k] == 0 {
      assert n == Zeros(MAX_FILENAME_LEN);
    }
  }

  lemma ClearedIff(d: seq<byte>, sb: SuperBlock)
    requires OnDevice(sb, |d|)
    ensures Cleared(d, sb) <==> forall m :: SLOTS_PER_SECT <= m < DIR_SLOTS ==> VolAt(d, sb).slots[m] == EMPTY
  {
    hide Bits, Records, SlotAt;
    var base, s := sb.n1stSect * SECTOR_SIZE, VolAt(d, sb).slots;
    forall m | 0 <= m < DIR_SLOTS
      ensures s[m] == EMPTY <==> forall q :: base + m * DIR_ENTRY_SIZE <= q < base + (m + 1) * DIR_ENTRY_SIZE ==>
        d[q] == 0
    {
      EmptyIff(d, base, m);
    }
    if forall m :: SLOTS_PER_SECT <= m < DIR_SLOTS ==> s[m] == EMPTY {
      forall p | (sb.n1stSect + 1) * SECTOR_SIZE <= p < (sb.n1stSect + NR_DEFAULT_FILE_SECTS) * SECTOR_SIZE
        ensures d[p] == 0
      {
        var m := (p - base) / DIR_ENTRY_SIZE;
        assert SLOTS_PER_SECT <= m < DIR_SLOTS && s[m] == EMPTY;
      }
    }
  }

  /** The five names that `mkfs` makes, and their numbers. */
  function BootNames(): map<seq<byte>, word> {
    map[Pad(InitialName(0)) := 1, Pad(InitialName(1)) := 2, Pad(InitialName(2)) := 3, Pad(InitialName(3)) := 4,
        Pad(InitialName(4)) := 5]
  }

  /** After `mkfs` the directory is a map from names to numbers if and only if the device had zeros behind
      its first sector: old slots survive `mkfs`. Then it is the map of the five names. */
  lemma MadeDirOkIff(v: Vol, sb: SuperBlock)
    requires MadeVol(v, sb)
    ensures Entries(v) == 5
    ensures DirOk(v.slots, 5) <==> forall m :: SLOTS_PER_SECT <= m < DIR_SLOTS ==> v.slots[m] == EMPTY
    ensures DirOk(v.slots, 5) ==> forall key, n :: Bound(v.slots, key, n) <==>
      key in BootNames() && BootNames()[key] == n
  {
    hide Pad, InitialName;
    MadeRecords(v, sb);
    var s := v.slots;
    assert forall m :: 0 <= m < 5 ==> s[m] == Slot(m + 1, Pad(InitialName(m)));
    assert forall m :: 5 <= m < SLOTS_PER_SECT ==> s[m] == EMPTY;
    forall m | 0 <= m < 5 ensures Live(s[m]) { PadFirst(InitialName(m)); }
    forall m, k | 0 <= m < k < 5 ensures s[m].name != s[k].name { NamesDiffer(m, k); }
    if DirOk(s, 5) { MadeBindings(s); }
  }

  lemma MadeBindings(s: seq<Slot>)
    requires DirOk(s, 5) && forall m :: 0 <= m < 5 ==> s[m] == Slot(m + 1, Pad(InitialName(m)))
    ensures forall key, n :: Bound(s, key, n) <==> key in BootNames() && BootNames()[key] == n
  {
    hide Pad, InitialName, Live;
    forall m, k | 0 <= m < k < 5 ensures Pad(InitialName(m)) != Pad(InitialName(k)) { NamesDiffer(m, k); }
    forall key, n ensures Bound(s, key, n) <==> key in BootNames() && BootNames()[key] == n {
      if Bound(s, key, n) {
        var m :| 0 <= m < |s| && s[m] == Slot(n, key);
        assert m < 5;
      }
      assert s[0] in s && s[1] in s && s[2] in s && s[3] in s && s[4] in s;
    }
  }
}
