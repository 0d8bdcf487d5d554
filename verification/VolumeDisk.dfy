/** The file system as a value, read off the bytes of the disk, and what each write to the disk does to
    that value: the regions of the disk do not overlap, so a write changes one part and no other. */
module VolumeDisk {
  import opened Const
  import opened BlockDevice
  import opened SectorMap
  import opened Inodes
  import opened Directory
  import opened Volume

  /** The maps, the i-node array and the root directory are on the disk. */
  predicate OnDevice(sb: SuperBlock, bytes: nat) {
    sb.Layout(bytes) && Geometry(sb) && (sb.n1stSect + NR_DEFAULT_FILE_SECTS) * SECTOR_SIZE <= bytes
  }

  function Records(d: seq<byte>, sb: SuperBlock): (r: seq<Inode>)
    requires OnDevice(sb, |d|)
    ensures |r| == NR_RECORDS
  {
    seq(NR_RECORDS, k requires 0 <= k < NR_RECORDS => InodeAt(d, InodeOff(sb, k + 1)))
  }

  lemma RecordIs(d: seq<byte>, sb: SuperBlock, num: nat)
    requires OnDevice(sb, |d|) && 1 <= num <= NR_RECORDS
    ensures Records(d, sb)[num - 1] == InodeAt(d, InodeOff(sb, num))
  {
  }

  ghost function VolAt(d: seq<byte>, sb: SuperBlock): Vol
    requires OnDevice(sb, |d|)
  {
    Vol(Bits(d, IMAP_BASE, SECTOR_SIZE), Bits(d, sb.SmapBase(), sb.SmapBytes()), Records(d, sb), Slots(d, sb.n1stSect))
  }

  // ---------------------------------------------------------------- frames

  /** The same bytes from `lo` up to `hi`. */
  ghost predicate Agree(d: seq<byte>, e: seq<byte>, lo: int, hi: int) {
    |d| == |e| && forall p :: 0 <= p < |d| && lo <= p < hi ==> d[p] == e[p]
  }

  lemma BitsAgree(d: seq<byte>, e: seq<byte>, base: nat, bytes: nat)
    requires Agree(d, e, base, base + bytes) && base + bytes <= |d|
    ensures Bits(d, base, bytes) == Bits(e, base, bytes)
  {
    hide BitOf;
  }

  lemma RecordsAgree(d: seq<byte>, e: seq<byte>, sb: SuperBlock)
    requires OnDevice(sb, |d|) && Agree(d, e, InodeSect(sb) * SECTOR_SIZE, sb.n1stSect * SECTOR_SIZE)
    ensures Records(d, sb) == Records(e, sb)
  {
    hide InodeAt, Records;
    forall k | 0 <= k < NR_RECORDS ensures Records(d, sb)[k] == Records(e, sb)[k] {
      var p := InodeOff(sb, k + 1);
      assert d[p..p + RECORD_SIZE] == e[p..p + RECORD_SIZE];
      InodeSame(d, p, e, p);
      RecordIs(d, sb, k + 1);
      RecordIs(e, sb, k + 1);
    }
  }

  lemma SlotsAgree(d: seq<byte>, e: seq<byte>, blk0: nat)
    requires (blk0 + NR_DEFAULT_FILE_SECTS) * SECTOR_SIZE <= |d|
    requires Agree(d, e, blk0 * SECTOR_SIZE, (blk0 + NR_DEFAULT_FILE_SECTS) * SECTOR_SIZE)
    ensures Slots(d, blk0) == Slots(e, blk0)
  {
    hide SlotAt, Slots;
    forall m | 0 <= m < DIR_SLOTS ensures Slots(d, blk0)[m] == Slots(e, blk0)[m] {
      SlotSame(d, e, blk0 * SECTOR_SIZE, m);
      SlotIs(d, blk0, m);
      SlotIs(e, blk0, m);
    }
  }

  lemma SpliceAgrees(d: seq<byte>, p: nat, b: seq<byte>, lo: int, hi: int)
    requires p + |b| <= |d| && (p + |b| <= lo || hi <= p)
    ensures Agree(Splice(d, p, b), d, lo, hi)
  {
  }

  lemma PaintAgrees(d: seq<byte>, base: nat, bytes: nat, lo: nat, hi: int, v: bool, from: int, to: int)
    requires hi <= bytes * 8 && (base + bytes <= from || to <= base)
    ensures Agree(Paint(d, base, lo, hi, v), d, from, to)
  {
    hide Paint;
    var e := Paint(d, base, lo, hi, v);
    forall p | 0 <= p < |d| && from <= p < to ensures e[p] == d[p] {
      PaintElsewhere(d, base, bytes, lo, hi, v, p);
    }
  }

  /** Behind the root directory, where the files are, the bytes are the same. */
  ghost predicate SameFiles(e: seq<byte>, d: seq<byte>, sb: SuperBlock) {
    Agree(e, d, (sb.n1stSect + NR_DEFAULT_FILE_SECTS) * SECTOR_SIZE, |d|)
  }

  lemma FilesTrans(a: seq<byte>, b: seq<byte>, c: seq<byte>, sb: SuperBlock)
    requires SameFiles(b, a, sb) && SameFiles(c, b, sb)
    ensures SameFiles(c, a, sb)
  {
  }

  lemma FilesSame(d: seq<byte>, sb: SuperBlock)
    ensures SameFiles(d, d, sb)
  {
  }

  lemma ImapFiles(d: seq<byte>, sb: SuperBlock, nr: nat, v: bool)
    requires OnDevice(sb, |d|) && nr < NR_RECORDS
    ensures SameFiles(Paint(d, IMAP_BASE, nr, nr + 1, v), d, sb)
  {
    hide Paint;
    PaintAgrees(d, IMAP_BASE, SECTOR_SIZE, nr, nr + 1, v, sb.n1stSect * SECTOR_SIZE, |d|);
  }

  lemma SmapFiles(d: seq<byte>, sb: SuperBlock, lo: nat, n: nat, v: bool)
    requires OnDevice(sb, |d|) && lo + n <= sb.SmapBytes() * 8
    ensures SameFiles(Paint(d, sb.SmapBase(), lo, lo + n, v), d, sb)
  {
    hide Paint;
    PaintAgrees(d, sb.SmapBase(), sb.SmapBytes(), lo, lo + n, v, sb.n1stSect * SECTOR_SIZE, |d|);
  }

  lemma FrontFiles(d: seq<byte>, sb: SuperBlock, p: nat, b: seq<byte>)
    requires p + |b| <= |d| && p + |b| <= (sb.n1stSect + NR_DEFAULT_FILE_SECTS) * SECTOR_SIZE
    ensures SameFiles(Splice(d, p, b), d, sb)
  {
    hide Splice;
    SpliceAgrees(d, p, b, (sb.n1stSect + NR_DEFAULT_FILE_SECTS) * SECTOR_SIZE, |d|);
  }

  /** The record of i-node `num`, and nothing else, has been written. */
  predicate RecordWritten(d: seq<byte>, e: seq<byte>, sb: SuperBlock, num: nat, x: Inode) {
    && OnDevice(sb, |d|) && 1 <= num <= NR_RECORDS && InodeOff(sb, num) + RECORD_SIZE <= |d|
    && e == Splice(d, InodeOff(sb, num), InodeBytes(x))
  }

  lemma RecordFiles(d: seq<byte>, e: seq<byte>, sb: SuperBlock, num: nat, x: Inode)
    requires RecordWritten(d, e, sb, num, x)
    ensures SameFiles(e, d, sb)
  {
    hide Splice, InodeBytes;
    FrontFiles(d, sb, InodeOff(sb, num), InodeBytes(x));
  }

  // ---------------------------------------------------------------- writes

  /** Painting a bit of the i-node map. */
  lemma PaintImap(d: seq<byte>, sb: SuperBlock, nr: nat, v: bool)
    requires OnDevice(sb, |d|) && nr < NR_RECORDS
    ensures var was := VolAt(d, sb);
      VolAt(Paint(d, IMAP_BASE, nr, nr + 1, v), sb) ==
        was.(inodeMap := if v then was.inodeMap + {nr} else was.inodeMap - {nr})
  {
    hide Paint, Bits, Records, Slots;
    var e := Paint(d, IMAP_BASE, nr, nr + 1, v);
    PaintBits(d, IMAP_BASE, SECTOR_SIZE, nr, 1, v);
    assert Range(nr, 1) == {nr};
    PaintAgrees(d, IMAP_BASE, SECTOR_SIZE, nr, nr + 1, v, sb.SmapBase(), |d|);
    BitsAgree(e, d, sb.SmapBase(), sb.SmapBytes());
    RecordsAgree(e, d, sb);
    SlotsAgree(e, d, sb.n1stSect);
  }

  /** Painting a run of the sector map. */
  lemma PaintSmap(d: seq<byte>, sb: SuperBlock, lo: nat, n: nat, v: bool)
    requires OnDevice(sb, |d|) && lo + n <= sb.SmapBytes() * 8
    ensures var was := VolAt(d, sb);
      VolAt(Paint(d, sb.SmapBase(), lo, lo + n, v), sb) ==
        was.(sectMap := if v then was.sectMap + Range(lo, n) else was.sectMap - Range(lo, n))
  {
    hide Paint, Bits, Records, Slots;
    var e := Paint(d, sb.SmapBase(), lo, lo + n, v);
    PaintBits(d, sb.SmapBase(), sb.SmapBytes(), lo, n, v);
    PaintAgrees(d, sb.SmapBase(), sb.SmapBytes(), lo, lo + n, v, 0, sb.SmapBase());
    PaintAgrees(d, sb.SmapBase(), sb.SmapBytes(), lo, lo + n, v, InodeSect(sb) * SECTOR_SIZE, |d|);
    BitsAgree(e, d, IMAP_BASE, SECTOR_SIZE);
    RecordsAgree(e, d, sb);
    SlotsAgree(e, d, sb.n1stSect);
  }

  /** Writing a record of the i-node array. */
  lemma SpliceRecord(d: seq<byte>, sb: SuperBlock, num: nat, x: Inode)
    requires OnDevice(sb, |d|) && 1 <= num <= NR_RECORDS
    ensures InodeOff(sb, num) + RECORD_SIZE <= |d|
    ensures var was := VolAt(d, sb);
      VolAt(Splice(d, InodeOff(sb, num), InodeBytes(x)), sb) == was.(recs := was.recs[num - 1 := x])
  {
    hide Splice, Bits, Records, Slots, InodeAt, InodeBytes;
    var p, b := InodeOff(sb, num), InodeBytes(x);
    var e := Splice(d, p, b);
    SpliceAgrees(d, p, b, 0, InodeSect(sb) * SECTOR_SIZE);
    SpliceAgrees(d, p, b, sb.n1stSect * SECTOR_SIZE, |d|);
    BitsAgree(e, d, IMAP_BASE, SECTOR_SIZE);
    BitsAgree(e, d, sb.SmapBase(), sb.SmapBytes());
    SlotsAgree(e, d, sb.n1stSect);
    forall k | 0 <= k < NR_RECORDS ensures Records(e, sb)[k] == Records(d, sb)[num - 1 := x][k] {
      RecordIs(d, sb, k + 1);
      RecordIs(e, sb, k + 1);
      if k + 1 == num { InodeRound(d, p, x); } else { InodeApart(d, InodeOff(sb, k + 1), p, b); }
    }
  }

  /** Writing inside the root directory. */
  lemma SpliceDir(d: seq<byte>, sb: SuperBlock, p: nat, b: seq<byte>)
    requires OnDevice(sb, |d|) && sb.n1stSect * SECTOR_SIZE <= p && p + |b| <= |d|
    ensures VolAt(Splice(d, p, b), sb) == VolAt(d, sb).(slots := Slots(Splice(d, p, b), sb.n1stSect))
  {
    hide Splice, Bits, Records, Slots;
    var e := Splice(d, p, b);
    SpliceAgrees(d, p, b, 0, sb.n1stSect * SECTOR_SIZE);
    BitsAgree(e, d, IMAP_BASE, SECTOR_SIZE);
    BitsAgree(e, d, sb.SmapBase(), sb.SmapBytes());
    RecordsAgree(e, d, sb);
  }

  /** Writing behind the root directory changes nothing. */
  lemma SpliceData(d: seq<byte>, sb: SuperBlock, p: nat, b: seq<byte>)
    requires OnDevice(sb, |d|) && (sb.n1stSect + NR_DEFAULT_FILE_SECTS) * SECTOR_SIZE <= p && p + |b| <= |d|
    ensures VolAt(Splice(d, p, b), sb) == VolAt(d, sb)
  {
    hide Splice, Bits, Records, Slots;
    SpliceDir(d, sb, p, b);
    SpliceAgrees(d, p, b, 0, p);
    SlotsAgree(Splice(d, p, b), d, sb.n1stSect);
  }
}
