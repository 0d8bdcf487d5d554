/** The super block: `mkfs` writes it to sector 1 (fs/main.c:148-169), and `read_super_block` takes the layout of the
    device from there (fs/main.c:343-368). */
module Super {
  import opened Const
  import opened BlockDevice
  import opened SectorMap
  import opened Words
  import opened Inodes
  import opened VolumeDisk

  const MAGIC_V1 := 0x111
  const SUPER_SECT := 1
  const SUPER_BASE := 512
  const SUPER_WORDS := 14
  const FILLER: byte := 0x90

  predicate Fits(sb: SuperBlock) {
    sb.nrImapSects < WORD && sb.nrSmapSects < WORD && sb.n1stSect < WORD && sb.nrInodeSects < WORD
  }

  /** The fields on the device, in their order (include/sys/fs.h:33-47). `inode_isize_off` is never assigned: it is
      `stale`, whatever the stack held. */
  function Fields(sb: SuperBlock, nrSects: word, stale: word): (ws: seq<word>)
    requires Fits(sb)
    ensures |ws| == SUPER_WORDS
  {
    [MAGIC_V1, SECTOR_BITS, nrSects, sb.nrImapSects, sb.nrSmapSects, sb.n1stSect, sb.nrInodeSects,
     ROOT_INODE, INODE_SIZE, stale, 8, DIR_ENTRY_SIZE, 0, 4]
  }

  /** Sector 1 holds these words and then the filler. */
  ghost predicate Holds(d: seq<byte>, base: nat, ws: seq<word>) {
    && |ws| == SUPER_WORDS && base + SECTOR_SIZE <= |d|
    && (forall k :: 0 <= k < SUPER_WORDS ==> WordAt(d, base + 4 * k) == ws[k])
    && (forall p :: base + 56 <= p < base + SECTOR_SIZE ==> d[p] == FILLER)
  }

  /** The first `n` words are in the buffer, behind them is the filler. */
  ghost predicate Stored(b: seq<byte>, ws: seq<word>, n: nat) {
    && n <= |ws| == SUPER_WORDS && |b| == FSBUF_SIZE
    && (forall k :: 0 <= k < n ==> WordAt(b, 4 * k) == ws[k])
    && (forall p :: 4 * n <= p < SECTOR_SIZE ==> b[p] == FILLER)
  }

  lemma StoredNext(b: seq<byte>, c: seq<byte>, ws: seq<word>, n: nat)
    requires Stored(b, ws, n) && n < SUPER_WORDS && c == Splice(b, 4 * n, WordBytes(ws[n]))
    ensures Stored(c, ws, n + 1)
  {
    hide WordAt, WordBytes;
    assert c[4 * n..4 * n + 4] == WordBytes(ws[n])[0..4];
    WordSame(c, 4 * n, WordBytes(ws[n]), 0);
    WordRound(ws[n]);
    forall k | 0 <= k < n ensures WordAt(c, 4 * k) == ws[k] {
      assert c[4 * k..4 * k + 4] == b[4 * k..4 * k + 4];
      WordSame(c, 4 * k, b, 4 * k);
    }
  }

  /** The filler, the fields over it, and the write. */
  method WriteSuper(dev: Disk, sb: SuperBlock, nrSects: word, stale: word)
    requires dev.Valid() && dev.OnDisk(SUPER_SECT, 1) && Fits(sb)
    modifies dev.data, dev.fsbuf
    ensures Holds(dev.data[..], SUPER_BASE, Fields(sb, nrSects, stale))
    ensures Agree(dev.data[..], old(dev.data[..]), SUPER_BASE + SECTOR_SIZE, dev.data.Length)
  {
    hide WordAt, WordBytes, Splice;
    ghost var d := dev.data[..];
    forall k | 0 <= k < SECTOR_SIZE {
      dev.fsbuf[k] := FILLER;
    }
    var ws := Fields(sb, nrSects, stale);
    var n := 0;
    while n < SUPER_WORDS
      invariant 0 <= n <= SUPER_WORDS && Stored(dev.fsbuf[..], ws, n) && dev.data[..] == d
    {
      ghost var b := dev.fsbuf[..];
      PutWord(dev, 4 * n, ws[n]);
      StoredNext(b, dev.fsbuf[..], ws, n);
      n := n + 1;
    }
    WriteSect(dev, SUPER_SECT, 0, SUPER_SECT);
    Written(d, dev.fsbuf[..], ws);
    SpliceAgrees(d, SUPER_BASE, dev.fsbuf[..SECTOR_SIZE], SUPER_BASE + SECTOR_SIZE, |d|);
  }

  lemma Written(d: seq<byte>, b: seq<byte>, ws: seq<word>)
    requires |d| >= SUPER_BASE + SECTOR_SIZE && Stored(b, ws, SUPER_WORDS)
    ensures Holds(Splice(d, SUPER_BASE, b[..SECTOR_SIZE]), SUPER_BASE, ws)
  {
    hide WordAt;
    var e := Splice(d, SUPER_BASE, b[..SECTOR_SIZE]);
    forall k | 0 <= k < SUPER_WORDS ensures WordAt(e, SUPER_BASE + 4 * k) == ws[k] {
      assert e[SUPER_BASE + 4 * k..SUPER_BASE + 4 * k + 4] == b[4 * k..4 * k + 4];
      WordSame(e, SUPER_BASE + 4 * k, b, 4 * k);
    }
  }

  /** What is written behind sector 1 does not change it. */
  lemma HoldsStill(d: seq<byte>, e: seq<byte>, ws: seq<word>)
    requires Holds(d, SUPER_BASE, ws) && Agree(e, d, 0, SUPER_BASE + SECTOR_SIZE)
    ensures Holds(e, SUPER_BASE, ws)
  {
    hide WordAt;
    forall k | 0 <= k < SUPER_WORDS ensures WordAt(e, SUPER_BASE + 4 * k) == ws[k] {
      assert e[SUPER_BASE + 4 * k..SUPER_BASE + 4 * k + 4] == d[SUPER_BASE + 4 * k..SUPER_BASE + 4 * k + 4];
      WordSame(e, SUPER_BASE + 4 * k, d, SUPER_BASE + 4 * k);
    }
  }

  /** `read_super_block`: the magic number and the layout, read back from sector 1. */
  method ReadSuper(dev: Disk, ghost sb: SuperBlock, ghost nrSects: word,
                   ghost stale: word) returns (magic: word, layout: SuperBlock)
    requires dev.Valid() && Fits(sb) && Holds(dev.data[..], SUPER_BASE, Fields(sb, nrSects, stale))
    modifies dev.fsbuf
    ensures magic == MAGIC_V1 && layout == sb
  {
    hide WordAt;
    dev.Read(SUPER_SECT, 1);
    ghost var d, b := dev.data[..], dev.fsbuf[..];
    forall k | 0 <= k < SUPER_WORDS ensures WordAt(b, 4 * k) == Fields(sb, nrSects, stale)[k] {
      InSector(d, b, SUPER_SECT, 4 * k, 4);
      WordSame(b, 4 * k, d, SUPER_BASE + 4 * k);
    }
    magic := WordAt(dev.fsbuf[..], 4 * 0);
    layout := SuperBlock(WordAt(dev.fsbuf[..], 4 * 3), WordAt(dev.fsbuf[..], 4 * 4), WordAt(dev.fsbuf[..], 4 * 6),
      WordAt(dev.fsbuf[..], 4 * 5));
  }
}
