/** The i-node array on disk: sixteen 32-byte records a sector, of which the four words of
    `struct inode` up to `i_nr_sects` are used. Loading one record and writing one back are the disk
    halves of `get_inode` and `sync_inode` (fs/main.c:280-328). */
module Inodes {
  import opened Const
  import opened BlockDevice
  import opened SectorMap
  import opened Words

  datatype Inode = Inode(mode: word, size: word, startSect: word, nrSects: word)

  /** A record that `do_unlink` has wiped. */
  const NO_RECORD := Inode(0, 0, 0, 0)

  const INODES_PER_SECT := 16
  const RECORD_SIZE := 16

  /** `num` has a record on the device. */
  predicate HasRecord(sb: SuperBlock, num: int) { 1 <= num <= sb.nrInodeSects * INODES_PER_SECT }

  function InodeSect(sb: SuperBlock): nat { 1 + 1 + sb.nrImapSects + sb.nrSmapSects }

  function InodeOff(sb: SuperBlock, num: nat): nat
    requires num >= 1
  {
    InodeSect(sb) * SECTOR_SIZE + (num - 1) * INODE_SIZE
  }

  /** The record at offset `p`. */
  function InodeAt(d: seq<byte>, p: nat): Inode
    requires p + RECORD_SIZE <= |d|
  {
    Inode(WordAt(d, p), WordAt(d, p + 4), WordAt(d, p + 8), WordAt(d, p + 12))
  }

  function InodeBytes(x: Inode): (b: seq<byte>)
    ensures |b| == RECORD_SIZE
  {
    WordBytes(x.mode) + WordBytes(x.size) + WordBytes(x.startSect) + WordBytes(x.nrSects)
  }

  lemma WordIn(b: seq<byte>, p: nat, w: word)
    requires p + 4 <= |b| && b[p..p + 4] == WordBytes(w)
    ensures WordAt(b, p) == w
  {
    hide WordAt, WordBytes;
    assert b[p..p + 4][0..4] == b[p..p + 4];
    assert WordBytes(w)[0..4] == WordBytes(w);
    WordSame(b, p, WordBytes(w), 0);
    WordRound(w);
  }

  /** Writing a record and reading it back. */
  lemma InodeRound(d: seq<byte>, p: nat, x: Inode)
    requires p + RECORD_SIZE <= |d|
    ensures InodeAt(Splice(d, p, InodeBytes(x)), p) == x
  {
    hide WordAt, WordBytes;
    var r := Splice(d, p, InodeBytes(x));
    assert r[p..p + 4] == WordBytes(x.mode);
    assert r[p + 4..p + 4 + 4] == WordBytes(x.size);
    assert r[p + 8..p + 8 + 4] == WordBytes(x.startSect);
    assert r[p + 12..p + 12 + 4] == WordBytes(x.nrSects);
    WordIn(r, p, x.mode);
    WordIn(r, p + 4, x.size);
    WordIn(r, p + 8, x.startSect);
    WordIn(r, p + 12, x.nrSects);
  }

  /** A record depends on its sixteen bytes only. */
  lemma InodeSame(d: seq<byte>, p: nat, e: seq<byte>, q: nat)
    requires p + RECORD_SIZE <= |d| && q + RECORD_SIZE <= |e| && d[p..p + RECORD_SIZE] == e[q..q + RECORD_SIZE]
    ensures InodeAt(d, p) == InodeAt(e, q)
  {
    hide WordAt;
    var s, t := d[p..p + RECORD_SIZE], e[q..q + RECORD_SIZE];
    assert s[..4] == d[p..p + 4] && t[..4] == e[q..q + 4];
    assert s[4..8] == d[p + 4..p + 4 + 4] && t[4..8] == e[q + 4..q + 4 + 4];
    assert s[8..12] == d[p + 8..p + 8 + 4] && t[8..12] == e[q + 8..q + 8 + 4];
    assert s[12..] == d[p + 12..p + 12 + 4] && t[12..] == e[q + 12..q + 12 + 4];
    WordSame(d, p, e, q);
    WordSame(d, p + 4, e, q + 4);
    WordSame(d, p + 8, e, q + 8);
    WordSame(d, p + 12, e, q + 12);
  }

  /** Nothing written elsewhere on the disk changes a record. */
  lemma InodeApart(d: seq<byte>, p: nat, q: nat, b: seq<byte>)
    requires p + RECORD_SIZE <= |d| && q + |b| <= |d| && (p + RECORD_SIZE <= q || q + |b| <= p)
    ensures InodeAt(Splice(d, q, b), p) == InodeAt(d, p)
  {
    hide InodeAt;
    assert Splice(d, q, b)[p..p + RECORD_SIZE] == d[p..p + RECORD_SIZE];
    InodeSame(Splice(d, q, b), p, d, p);
  }

  /** Store a word in the buffer. */
  method PutWord(dev: Disk, p: nat, w: word)
    requires dev.Valid() && p + 4 <= FSBUF_SIZE
    modifies dev.fsbuf
    ensures dev.fsbuf[..] == Splice(old(dev.fsbuf[..]), p, WordBytes(w))
  {
    var b := WordBytes(w);
    dev.fsbuf[p], dev.fsbuf[p + 1], dev.fsbuf[p + 2], dev.fsbuf[p + 3] := b[0], b[1], b[2], b[3];
  }

  /** The four assignments of `sync_inode` (fs/main.c:323-326). */
  method PutInode(dev: Disk, p: nat, x: Inode)
    requires dev.Valid() && p + RECORD_SIZE <= FSBUF_SIZE
    modifies dev.fsbuf
    ensures dev.fsbuf[..] == Splice(old(dev.fsbuf[..]), p, InodeBytes(x))
  {
    hide WordBytes, Splice;
    ghost var buf := dev.fsbuf[..];
    PutWord(dev, p, x.mode);
    PutWord(dev, p + 4, x.size);
    PutWord(dev, p + 8, x.startSect);
    PutWord(dev, p + 12, x.nrSects);
    FourWords(buf, p, x);
  }

  /** Byte and sector of a record. */
  lemma RecordPlace(sb: SuperBlock, num: nat)
    requires num >= 1
    ensures InodeOff(sb, num) ==
      (InodeSect(sb) + (num - 1) / INODES_PER_SECT) * SECTOR_SIZE + (num - 1) % INODES_PER_SECT * INODE_SIZE
    ensures (num - 1) % INODES_PER_SECT * INODE_SIZE + RECORD_SIZE <= SECTOR_SIZE
  {
  }

  lemma InSector(d: seq<byte>, buf: seq<byte>, blkNr: nat, p: nat, n: nat)
    requires (blkNr + 1) * SECTOR_SIZE <= |d| && |buf| >= SECTOR_SIZE && p + n <= SECTOR_SIZE
    requires buf[..SECTOR_SIZE] == Sector(d, 0, blkNr)
    ensures buf[p..p + n] == d[blkNr * SECTOR_SIZE + p..blkNr * SECTOR_SIZE + p + n]
  {
    var x, y := buf[p..p + n], d[blkNr * SECTOR_SIZE + p..blkNr * SECTOR_SIZE + p + n];
    forall k | 0 <= k < n ensures x[k] == y[k] {
      assert buf[p + k] == buf[..SECTOR_SIZE][p + k] == Sector(d, 0, blkNr)[p + k];
    }
  }

  /** The record in the buffer. */
  lemma RecordInBuffer(d: seq<byte>, buf: seq<byte>, sb: SuperBlock, num: nat)
    requires sb.Layout(|d|) && HasRecord(sb, num) && |buf| >= SECTOR_SIZE
    requires buf[..SECTOR_SIZE] == Sector(d, 0, InodeSect(sb) + (num - 1) / INODES_PER_SECT)
    ensures InodeAt(buf, (num - 1) % INODES_PER_SECT * INODE_SIZE) == InodeAt(d, InodeOff(sb, num))
  {
    hide InodeAt, Sector;
    var p := (num - 1) % INODES_PER_SECT * INODE_SIZE;
    RecordPlace(sb, num);
    InSector(d, buf, InodeSect(sb) + (num - 1) / INODES_PER_SECT, p, RECORD_SIZE);
    InodeSame(buf, p, d, InodeOff(sb, num));
  }

  /** Read the sector of a record and take its four words (fs/main.c:307-313). */
  method LoadInode(dev: Disk, sb: SuperBlock, num: nat) returns (x: Inode)
    requires dev.Valid() && sb.Layout(dev.data.Length) && HasRecord(sb, num)
    modifies dev.fsbuf
    ensures x == InodeAt(dev.data[..], InodeOff(sb, num))
  {
    hide InodeAt, Sector;
    var blkNr := InodeSect(sb) + (num - 1) / INODES_PER_SECT;
    ReadSect(dev, blkNr, 0, blkNr);
    RecordInBuffer(dev.data[..], dev.fsbuf[..], sb, num);
    x := InodeAt(dev.fsbuf[..], (num - 1) % INODES_PER_SECT * INODE_SIZE);
  }

  /** Read the sector of a record, change its four words and write the sector back
      (fs/main.c:318-327): on disk, only the record changes. */
  method StoreInode(dev: Disk, sb: SuperBlock, num: nat, x: Inode)
    requires dev.Valid() && sb.Layout(dev.data.Length) && HasRecord(sb, num)
    modifies dev.data, dev.fsbuf
    ensures dev.data[..] == Splice(old(dev.data[..]), InodeOff(sb, num), InodeBytes(x))
  {
    hide InodeBytes, Sector, Splice;
    var blkNr := InodeSect(sb) + (num - 1) / INODES_PER_SECT;
    var p := (num - 1) % INODES_PER_SECT * INODE_SIZE;
    RecordPlace(sb, num);
    ReadSect(dev, blkNr, 0, blkNr);
    ghost var d, buf := dev.data[..], dev.fsbuf[..];
    PutInode(dev, p, x);
    dev.Write(blkNr, 1);
    RewriteRecord(d, buf, blkNr, p, InodeBytes(x));
  }

  lemma RewriteRecord(d: seq<byte>, buf: seq<byte>, blkNr: nat, p: nat, b: seq<byte>)
    requires (blkNr + 1) * SECTOR_SIZE <= |d| && |buf| >= SECTOR_SIZE && buf[..SECTOR_SIZE] == Sector(d, 0, blkNr)
    requires p + |b| <= SECTOR_SIZE
    ensures Splice(d, blkNr * SECTOR_SIZE, Splice(buf, p, b)[..SECTOR_SIZE]) == Splice(d, blkNr * SECTOR_SIZE + p, b)
  {
    hide Splice;
    var s := buf[..SECTOR_SIZE];
    SplicePrefix(buf, p, b, SECTOR_SIZE);
    assert s == d[blkNr * SECTOR_SIZE..blkNr * SECTOR_SIZE + |s|];
    RewriteSector(d, s, blkNr * SECTOR_SIZE, p, b);
  }

  lemma FourWords(b: seq<byte>, p: nat, x: Inode)
    requires p + RECORD_SIZE <= |b|
    ensures Splice(Splice(Splice(Splice(b, p, WordBytes(x.mode)), p + 4, WordBytes(x.size)),
                          p + 8, WordBytes(x.startSect)),
              p + 12, WordBytes(x.nrSects)) == Splice(b, p, InodeBytes(x))
  {
    hide WordBytes, Splice;
    var two := WordBytes(x.mode) + WordBytes(x.size);
    SpliceTwice(b, p, WordBytes(x.mode), WordBytes(x.size));
    SpliceTwice(b, p, two, WordBytes(x.startSect));
    SpliceTwice(b, p, two + WordBytes(x.startSect), WordBytes(x.nrSects));
  }

}
