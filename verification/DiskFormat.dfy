/** The format on the device, byte by byte: words, records, slots, maps and super block at their places, and what a
    fresh file system answers to the paths of its five files. */
module DiskFormat {
  import opened BlockDevice
  import opened SectorMap
  import opened Words
  import opened Inodes
  import opened Directory
  import opened DirectoryMap
  import opened Volume
  import opened VolumeDisk
  import opened MakeFs
  import opened FileSystem
  import Super

  /** Words are stored low byte first. */
  lemma WordFormat(d: seq<byte>, p: nat)
    requires p + 4 <= |d|
    ensures WordAt(d, p) ==
      d[p] as int + 0x100 * d[p + 1] as int + 0x10000 * d[p + 2] as int + 0x1000000 * d[p + 3] as int
  {
  }

  /** The record of i-node `num`: 32 bytes each, behind boot sector, super block and both maps; its first four words
      are mode, size, first sector and number of sectors (include/sys/fs.h:60-72). */
  lemma RecordFormat(d: seq<byte>, sb: SuperBlock, num: nat)
    requires OnDevice(sb, |d|) && 1 <= num <= 4096
    ensures var p := (3 + sb.nrSmapSects) * 512 + (num - 1) * 32;
      p + 16 <= |d|
      && VolAt(d, sb).recs[num - 1] == Inode(WordAt(d, p), WordAt(d, p + 4), WordAt(d, p + 8), WordAt(d, p + 12))
  {
    hide WordAt;
    RecordIs(d, sb, num);
  }

  /** Slot `m` of the directory: 16 bytes each from the first data sector on, the number and then twelve bytes of
      name. */
  lemma SlotFormat(d: seq<byte>, sb: SuperBlock, m: nat)
    requires OnDevice(sb, |d|) && m < 16384
    ensures var p := sb.n1stSect * 512 + m * 16;
      p + 16 <= |d| && VolAt(d, sb).slots[m] == Slot(WordAt(d, p), d[p + 4..p + 16])
  {
    hide WordAt;
  }

  /** Bit `k` of a map is bit k mod 8, from the low end, of byte k div 8; the i-node map is sector 2, and the sector map
      follows it. */
  lemma MapFormat(d: seq<byte>, sb: SuperBlock, k: nat)
    requires OnDevice(sb, |d|)
    ensures k < 4096 ==> 1024 + k / 8 < |d| && (k in VolAt(d, sb).inodeMap <==> (d[1024 + k / 8] >> (k % 8)) & 1 == 1)
    ensures k < sb.nrSmapSects * 4096 ==>
      1536 + k / 8 < |d| && (k in VolAt(d, sb).sectMap <==> (d[1536 + k / 8] >> (k % 8)) & 1 == 1)
  {
    hide Records, Slots;
  }

  /** Sector `s` of the data has the bit s - n_1st_sect + 1 (fs/open.c:304-306). */
  lemma SectorBit(sb: SuperBlock, x: Inode, s: int)
    ensures InExtent(sb, x, s - sb.n1stSect + 1) <==> x.startSect <= s < x.startSect + x.nrSects
  {
  }

  /** The layout of a device (fs/main.c:149-155), and the super block that describes it (include/sys/fs.h:33-47). */
  lemma SuperFormat(d: seq<byte>, nrSects: word, stale: word)
    requires Super.Fits(LayoutOf(nrSects)) && Super.Holds(d, 512, Super.Fields(LayoutOf(nrSects), nrSects, stale))
    ensures LayoutOf(nrSects) == SuperBlock(1, nrSects / 4096 + 1, 256, nrSects / 4096 + 260)
    ensures WordAt(d, 512) == 0x111 && WordAt(d, 516) == 4096 && WordAt(d, 520) == nrSects
    ensures WordAt(d, 524) == 1 && WordAt(d, 528) == nrSects / 4096 + 1
    ensures WordAt(d, 532) == nrSects / 4096 + 260 && WordAt(d, 536) == 256
    ensures WordAt(d, 540) == 1 && WordAt(d, 544) == 32 && WordAt(d, 552) == 8
    ensures WordAt(d, 556) == 16 && WordAt(d, 560) == 0 && WordAt(d, 564) == 4
  {
    hide WordAt;
    var ws := Super.Fields(LayoutOf(nrSects), nrSects, stale);
    assert forall k :: 0 <= k < 14 ==> WordAt(d, 512 + 4 * k) == ws[k];
    assert WordAt(d, 512 + 4 * 0) == ws[0] && WordAt(d, 512 + 4 * 1) == ws[1] && WordAt(d, 512 + 4 * 2) == ws[2];
    assert WordAt(d, 512 + 4 * 3) == ws[3] && WordAt(d, 512 + 4 * 4) == ws[4] && WordAt(d, 512 + 4 * 5) == ws[5];
    assert WordAt(d, 512 + 4 * 6) == ws[6] && WordAt(d, 512 + 4 * 7) == ws[7] && WordAt(d, 512 + 4 * 8) == ws[8];
    assert WordAt(d, 512 + 4 * 10) == ws[10] && WordAt(d, 512 + 4 * 11) == ws[11];
    assert WordAt(d, 512 + 4 * 12) == ws[12] && WordAt(d, 512 + 4 * 13) == ws[13];
  }

  // ---------------------------------------------------------------- the five files

  /** What `mkfs` put into the first places, one at a time. */
  lemma MadeAt(v: Vol, sb: SuperBlock, m: nat)
    requires MadeVol(v, sb) && m < 5
    ensures |v.recs| == NR_RECORDS && |v.slots| == DIR_SLOTS && sb.n1stSect < WORD
    ensures v.recs[m] == InitialRecord(sb, m + 1) && v.slots[m] == Slot(m + 1, Pad(InitialName(m)))
  {
    hide Pad, InitialName, InitialRecord;
    assert v.slots[m] == InitialSlot(m);
  }

  /** Root directory, three terminals and cmd.tar: their records. */
  lemma BootRecords(v: Vol, sb: SuperBlock)
    requires MadeVol(v, sb)
    ensures |v.recs| == 4096 && |v.slots| == 16384 && v.recs[0] == Inode(0x4000, 80, sb.n1stSect, 512)
    ensures v.recs[1] == Inode(0x2000, 0, 0x400, 0) && v.recs[2] == Inode(0x2000, 0, 0x401, 0)
    ensures v.recs[3] == Inode(0x2000, 0, 0x402, 0)
    ensures v.recs[4] == Inode(0x8000, 0x100000, 0x8000, 0x800)
  {
    hide MadeVol;
    MadeAt(v, sb, 0);
    MadeAt(v, sb, 1);
    MadeAt(v, sb, 2);
    MadeAt(v, sb, 3);
    MadeAt(v, sb, 4);
  }

  /** Their paths: "/", "/dev_tty0" to "/dev_tty2" and "/cmd.tar". */
  lemma BootPaths(v: Vol, sb: SuperBlock)
    requires MadeVol(v, sb)
    ensures |v.recs| == 4096 && |v.slots| == 16384 && Entries(v) == 5 && PathInode(v, [0x2F]) == 1
    ensures PathInode(v, [0x2F] + [0x64, 0x65, 0x76, 0x5F, 0x74, 0x74, 0x79, 0x30]) == 2
    ensures PathInode(v, [0x2F] + [0x64, 0x65, 0x76, 0x5F, 0x74, 0x74, 0x79, 0x31]) == 3
    ensures PathInode(v, [0x2F] + [0x64, 0x65, 0x76, 0x5F, 0x74, 0x74, 0x79, 0x32]) == 4
    ensures PathInode(v, [0x2F] + [0x63, 0x6D, 0x64, 0x2E, 0x74, 0x61, 0x72]) == 5
  {
    hide MadeVol, PathInode, InitialName, Plain;
    BootRecords(v, sb);
    RootPath(v);
    LiteralNames();
    BootPath(v, sb, 1);
    BootPath(v, sb, 2);
    BootPath(v, sb, 3);
    BootPath(v, sb, 4);
  }

  lemma RootPath(v: Vol)
    requires DirShape(v)
    ensures PathInode(v, [0x2F]) == 1
  {
    hide Stripped, Search;
    var none: seq<byte> := [];
    OneSlash(none);
    assert [SLASH] + none == [SLASH];
  }

  lemma LiteralNames()
    ensures InitialName(1) == [0x64, 0x65, 0x76, 0x5F, 0x74, 0x74, 0x79, 0x30]
    ensures InitialName(2) == [0x64, 0x65, 0x76, 0x5F, 0x74, 0x74, 0x79, 0x31]
    ensures InitialName(3) == [0x64, 0x65, 0x76, 0x5F, 0x74, 0x74, 0x79, 0x32]
    ensures InitialName(4) == [0x63, 0x6D, 0x64, 0x2E, 0x74, 0x61, 0x72]
  {
    assert 0x30 + (1 - 1) as byte == 0x30 && 0x30 + (2 - 1) as byte == 0x31 && 0x30 + (3 - 1) as byte == 0x32;
    assert DEV_TTY + [0x30] == [0x64, 0x65, 0x76, 0x5F, 0x74, 0x74, 0x79, 0x30];
    assert DEV_TTY + [0x31] == [0x64, 0x65, 0x76, 0x5F, 0x74, 0x74, 0x79, 0x31];
    assert DEV_TTY + [0x32] == [0x64, 0x65, 0x76, 0x5F, 0x74, 0x74, 0x79, 0x32];
  }

  lemma InitialPlain(m: nat)
    requires m < 5
    ensures |InitialName(m)| > 0 && Plain(InitialName(m))
  {
    var n := InitialName(m);
    assert forall k :: 0 <= k < |n| ==> n[k] != 0 && n[k] != SLASH;
  }

  lemma BootPath(v: Vol, sb: SuperBlock, m: nat)
    requires MadeVol(v, sb) && m < 5 && DirShape(v) && Entries(v) == 5
    ensures PathInode(v, [0x2F] + InitialName(m)) == m + 1
  {
    hide MadeVol, Stripped, FindName, InitialName, Pad, Entries;
    var name := InitialName(m);
    InitialPlain(m);
    OneSlash(name);
    var s := v.slots[..Probed(5)];
    assert |s| > 5;
    MadeAt(v, sb, m);
    assert s[m] == v.slots[m];
    forall k | 0 <= k < m ensures s[k].name != Pad(name) {
      MadeAt(v, sb, k);
      NamesDiffer(k, m);
    }
    assert FindName(s, Pad(name)) == m by { FoundAt(s, Pad(name), m); }
  }

  lemma FoundAt(s: seq<Slot>, key: seq<byte>, m: nat)
    requires m < |s| && s[m].name == key && forall k :: 0 <= k < m ==> s[k].name != key
    ensures FindName(s, key) == m
  {
  }
}
