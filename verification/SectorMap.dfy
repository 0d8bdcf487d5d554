/** The two bitmaps of the file system, bit by bit: allocation (`alloc_imap_bit`, `alloc_smap_bit`
    in fs/open.c) and release (fs/link.c:49-97), with their byte and sector loops over `fsbuf`.
    The specification is `Paint`: the disk with one run of bits set or cleared. */
module SectorMap {
  import opened Const
  import opened BlockDevice

  /** The fields of `struct super_block` that locate the maps. */
  datatype SuperBlock = SuperBlock(nrImapSects: nat, nrSmapSects: nat, nrInodeSects: nat, n1stSect: nat) {
    /** First sector of the sector map, its first byte, and its size in bytes. */
    function SmapSect(): nat { 1 + 1 + nrImapSects }
    function SmapBase(): nat { SmapSect() * SECTOR_SIZE }
    function SmapBytes(): nat { nrSmapSects * SECTOR_SIZE }

    /** The layout that `mkfs` computes: one inode-map sector, then the sector map, then the inodes,
        then data. */
    predicate Layout(diskBytes: nat) {
      && nrImapSects == 1 && nrSmapSects > 0 && nrInodeSects > 0
      && n1stSect == 1 + 1 + nrImapSects + nrSmapSects + nrInodeSects
      && n1stSect * SECTOR_SIZE <= diskBytes
    }
  }

  /** The inode map occupies one sector, right after the super block. */
  const IMAP_SECT := 2
  const IMAP_BASE := 1024

  // ---------------------------------------------------------------- specification

  /** The set bits of the map held in `bytes` bytes from `base`. */
  ghost function Bits(d: seq<byte>, base: nat, bytes: nat): set<int>
    requires base + bytes <= |d|
  {
    set x | 0 <= x < bytes * 8 && BitOf(d[base + x / 8], x % 8)
  }

  ghost function Range(lo: int, n: nat): (r: set<int>)
    ensures forall x :: x in r <==> lo <= x < lo + n
  {
    if n == 0 then {} else Range(lo, n - 1) + {lo + n - 1}
  }

  /** The first clear bit of the map is `first`, and the `n` bits from there on are clear. */
  predicate FirstFit(bits: set<int>, total: nat, n: nat, first: int) {
    && 0 <= first && first + n <= total
    && (forall b :: 0 <= b < first ==> b in bits)
    && (forall b :: first <= b < first + n ==> b !in bits)
  }

  function WithBit(b: byte, k: nat, v: bool): byte
    requires k < 8
  {
    if v then b | (1 << k) else b & !(1 << k)
  }

  predicate InRun(x: int, lo: int, hi: int) { lo <= x < hi }

  /** The byte `b`, whose bits are `pos`, `pos + 1`, ... of the map, with those in [lo, hi) set to `v`. */
  ghost function PaintByte(b: byte, pos: int, lo: int, hi: int, v: bool): byte { PaintLow(b, pos, lo, hi, v, 8) }

  ghost function PaintLow(b: byte, pos: int, lo: int, hi: int, v: bool, k: nat): byte
    requires k <= 8
  {
    if k == 0 then b
    else
      var r := PaintLow(b, pos, lo, hi, v, k - 1);
      if InRun(pos + k - 1, lo, hi) then WithBit(r, k - 1, v) else r
  }

  lemma {:induction false} PaintLowBits(b: byte, pos: int, lo: int, hi: int, v: bool, k: nat)
    requires k <= 8
    ensures forall c :: 0 <= c < 8 ==>
      BitOf(PaintLow(b, pos, lo, hi, v, k), c) == if c < k && InRun(pos + c, lo, hi) then v else BitOf(b, c)
  {
    hide BitOf, WithBit;
    if k > 0 {
      PaintLowBits(b, pos, lo, hi, v, k - 1);
      WithBitBits(PaintLow(b, pos, lo, hi, v, k - 1), k - 1, v);
    }
  }

  /** `d` with the bits [lo, hi) of the map at `base` set to `v`. */
  ghost function Paint(d: seq<byte>, base: nat, lo: int, hi: int, v: bool): (r: seq<byte>)
    ensures |r| == |d|
  {
    seq(|d|, p requires 0 <= p < |d| => PaintByte(d[p], (p - base) * 8, lo, hi, v))
  }

  // ---------------------------------------------------------------- facts about Paint

  lemma WithBitBits(b: byte, k: nat, v: bool)
    requires k < 8
    ensures forall c :: 0 <= c < 8 ==> BitOf(WithBit(b, k, v), c) == if c == k then v else BitOf(b, c)
  {
    SetBit(b, k);
    ClearBit(b, k);
  }

  lemma PaintByteBits(b: byte, pos: int, lo: int, hi: int, v: bool)
    ensures forall c :: 0 <= c < 8 ==>
      BitOf(PaintByte(b, pos, lo, hi, v), c) == if InRun(pos + c, lo, hi) then v else BitOf(b, c)
  {
    PaintLowBits(b, pos, lo, hi, v, 8);
  }

  lemma PaintByteIs(b: byte, b': byte, pos: int, lo: int, hi: int, v: bool)
    requires forall c :: 0 <= c < 8 ==> BitOf(b', c) == if lo <= pos + c < hi then v else BitOf(b, c)
    ensures b' == PaintByte(b, pos, lo, hi, v)
  {
    PaintByteBits(b, pos, lo, hi, v);
    SameBits(b', PaintByte(b, pos, lo, hi, v));
  }

  /** Two runs that agree on the eight bits of a byte paint it alike. */
  lemma PaintByteAgree(b: byte, pos: int, lo: int, hi: int, lo': int, hi': int, v: bool)
    requires forall x :: pos <= x < pos + 8 ==> (InRun(x, lo, hi) <==> InRun(x, lo', hi'))
    ensures PaintByte(b, pos, lo, hi, v) == PaintByte(b, pos, lo', hi', v)
  {
    PaintByteBits(b, pos, lo, hi, v);
    PaintByteBits(b, pos, lo', hi', v);
    SameBits(PaintByte(b, pos, lo, hi, v), PaintByte(b, pos, lo', hi', v));
  }

  /** A run that misses the byte leaves it alone. */
  lemma PaintByteNone(b: byte, pos: int, lo: int, hi: int, v: bool)
    requires hi <= lo || hi <= pos || pos + 8 <= lo
    ensures PaintByte(b, pos, lo, hi, v) == b
  {
    PaintByteBits(b, pos, lo, hi, v);
    SameBits(PaintByte(b, pos, lo, hi, v), b);
  }

  lemma BitsAt(d: seq<byte>, base: nat, bytes: nat, y: nat, k: nat)
    requires base + bytes <= |d| && y < bytes && k < 8
    ensures y * 8 + k in Bits(d, base, bytes) <==> BitOf(d[base + y], k)
  {
    assert (y * 8 + k) / 8 == y && (y * 8 + k) % 8 == k;
  }

  lemma PaintBit(d: seq<byte>, base: nat, bytes: nat, lo: nat, hi: int, v: bool, x: nat)
    requires base + bytes <= |d| && x < bytes * 8
    ensures x in Bits(Paint(d, base, lo, hi, v), base, bytes) <==> if lo <= x < hi then v else x in Bits(d, base, bytes)
  {
    hide PaintByte, PaintLow, BitOf, Bits;
    var d', y := Paint(d, base, lo, hi, v), x / 8;
    BitsAt(d, base, bytes, y, x % 8);
    BitsAt(d', base, bytes, y, x % 8);
    PaintByteBits(d[base + y], y * 8, lo, hi, v);
    assert d'[base + y] == PaintByte(d[base + y], y * 8, lo, hi, v);
  }

  /** Painting a run adds it to the set bits, or removes it. */
  lemma PaintBits(d: seq<byte>, base: nat, bytes: nat, lo: nat, n: nat, v: bool)
    requires base + bytes <= |d| && lo + n <= bytes * 8
    ensures Bits(Paint(d, base, lo, lo + n, v), base, bytes) ==
      if v then Bits(d, base, bytes) + Range(lo, n) else Bits(d, base, bytes) - Range(lo, n)
  {
    hide Paint, BitOf;
    var d' := Paint(d, base, lo, lo + n, v);
    var want := if v then Bits(d, base, bytes) + Range(lo, n) else Bits(d, base, bytes) - Range(lo, n);
    forall x ensures x in Bits(d', base, bytes) <==> x in want {
      if 0 <= x < bytes * 8 { PaintBit(d, base, bytes, lo, lo + n, v, x); }
    }
  }

  /** Painting a run leaves every other byte range of the disk alone. */
  lemma PaintElsewhere(d: seq<byte>, base: nat, bytes: nat, lo: nat, hi: int, v: bool, p: nat)
    requires p < |d| && hi <= bytes * 8 && !(base <= p < base + bytes)
    ensures Paint(d, base, lo, hi, v)[p] == d[p]
  {
    PaintByteNone(d[p], (p - base) * 8, lo, hi, v);
  }

  lemma PaintNothing(d: seq<byte>, base: nat, lo: int, hi: int, v: bool)
    requires hi <= lo
    ensures Paint(d, base, lo, hi, v) == d
  {
    forall p | 0 <= p < |d| ensures Paint(d, base, lo, hi, v)[p] == d[p] {
      PaintByteNone(d[p], (p - base) * 8, lo, hi, v);
    }
  }

  /** Allocate, then free: releasing a run of clear bits that was set restores the disk bit for bit,
      and the other way round. */
  lemma PaintBack(d: seq<byte>, base: nat, bytes: nat, lo: nat, n: nat, v: bool)
    requires base + bytes <= |d| && lo + n <= bytes * 8
    requires forall b :: lo <= b < lo + n ==> (b in Bits(d, base, bytes) <==> !v)
    ensures Paint(Paint(d, base, lo, lo + n, v), base, lo, lo + n, !v) == d
  {
    var d' := Paint(d, base, lo, lo + n, v);
    forall p | 0 <= p < |d| ensures Paint(d', base, lo, lo + n, !v)[p] == d[p] {
      var pos := (p - base) * 8;
      PaintByteBits(d[p], pos, lo, lo + n, v);
      PaintByteBits(d'[p], pos, lo, lo + n, !v);
      forall c | 0 <= c < 8 ensures BitOf(PaintByte(d'[p], pos, lo, lo + n, !v), c) == BitOf(d[p], c) {
        if lo <= pos + c < lo + n {
          BitsAt(d, base, bytes, p - base, c);
        }
      }
      SameBits(PaintByte(d'[p], pos, lo, lo + n, !v), d[p]);
    }
  }

  // ---------------------------------------------------------------- sectors of the map

  /** Sector `i` after `base`. */
  function Sector(d: seq<byte>, base: nat, i: nat): (r: seq<byte>)
    requires base + (i + 1) * SECTOR_SIZE <= |d|
    ensures |r| == SECTOR_SIZE
  {
    d[base + i * SECTOR_SIZE..base + (i + 1) * SECTOR_SIZE]
  }

  /** The runs [lo, hi) and [lo', hi') differ only inside [from, to). */
  predicate DifferInside(lo: int, hi: int, lo': int, hi': int, from: int, to: int) {
    if lo == lo' then hi == hi' || (from <= hi <= hi' <= to)
    else hi <= lo && from <= lo' <= hi' <= to
  }

  /** A byte of the map that a run does not touch. */
  lemma Untouched(d: seq<byte>, base: nat, lo: int, hi: int, v: bool, y: nat)
    requires base + y < |d| && (hi <= y * 8 || hi <= lo || y * 8 + 8 <= lo)
    ensures Paint(d, base, lo, hi, v)[base + y] == d[base + y]
  {
    PaintByteNone(d[base + y], y * 8, lo, hi, v);
  }

  /** Repainting byte `j` of the buffered sector moves the run from [lo, hi) to [lo', hi'). */
  lemma StepByte(d: seq<byte>, base: nat, i: nat, j: nat, lo: int, hi: int, lo': int, hi': int, v: bool, b: byte)
    requires base + (i + 1) * SECTOR_SIZE <= |d| && j < SECTOR_SIZE
    requires var p := (i * SECTOR_SIZE + j) * 8;
      DifferInside(lo, hi, lo', hi', p, p + 8) && b == PaintByte(d[base + i * SECTOR_SIZE + j], p, lo', hi', v)
    ensures Sector(Paint(d, base, lo, hi, v), base, i)[j := b] == Sector(Paint(d, base, lo', hi', v), base, i)
  {
    var s, s' := Sector(Paint(d, base, lo, hi, v), base, i), Sector(Paint(d, base, lo', hi', v), base, i);
    forall q | 0 <= q < SECTOR_SIZE ensures s[j := b][q] == s'[q] {
      var y := i * SECTOR_SIZE + q;
      assert s[q] == PaintByte(d[base + y], y * 8, lo, hi, v) && s'[q] == PaintByte(d[base + y], y * 8, lo', hi', v);
      if q != j { PaintByteAgree(d[base + y], y * 8, lo, hi, lo', hi', v); }
    }
  }

  /** Writing the buffered sector brings the disk from one run to the other. */
  lemma Flush(d: seq<byte>, base: nat, i: nat, lo: int, hi: int, lo': int, hi': int, v: bool)
    requires base + (i + 1) * SECTOR_SIZE <= |d|
    requires DifferInside(lo, hi, lo', hi', i * SECTOR_BITS, (i + 1) * SECTOR_BITS)
    ensures Splice(Paint(d, base, lo, hi, v), base + i * SECTOR_SIZE, Sector(Paint(d, base, lo', hi', v), base, i)) ==
            Paint(d, base, lo', hi', v)
  {
    var s, want := Sector(Paint(d, base, lo', hi', v), base, i), Paint(d, base, lo', hi', v);
    var r := Splice(Paint(d, base, lo, hi, v), base + i * SECTOR_SIZE, s);
    forall p | 0 <= p < |d| ensures r[p] == want[p] {
      if !(base + i * SECTOR_SIZE <= p < base + (i + 1) * SECTOR_SIZE) {
        PaintByteAgree(d[p], (p - base) * 8, lo, hi, lo', hi', v);
      }
    }
  }

  /** `RD_SECT`: sector `s` of the disk, which is sector `i` of the map at `base`. */
  method ReadSect(dev: Disk, s: nat, ghost base: nat, ghost i: nat)
    requires dev.Valid() && dev.OnDisk(s, 1) && s * SECTOR_SIZE == base + i * SECTOR_SIZE
    modifies dev.fsbuf
    ensures dev.fsbuf[..SECTOR_SIZE] == Sector(dev.data[..], base, i)
  {
    dev.Read(s, 1);
  }

  /** `WR_SECT`. */
  method WriteSect(dev: Disk, s: nat, ghost base: nat, ghost i: nat)
    requires dev.Valid() && dev.OnDisk(s, 1) && s * SECTOR_SIZE == base + i * SECTOR_SIZE
    modifies dev.data
    ensures dev.data[..] == Splice(old(dev.data[..]), base + i * SECTOR_SIZE, dev.fsbuf[..SECTOR_SIZE])
  {
    dev.Write(s, 1);
  }

  // ---------------------------------------------------------------- allocation

  /** How far `alloc_smap_bit` has come when it has looked at the bits below `pos`: still looking
      for a clear bit, or filling from the first clear bit `first` with `left` bits to go. */
  ghost predicate Progress(bits: set<int>, pos: int, n: nat, left: nat, free: int, first: int, n1: int) {
    if free == 0 then left == n && first == 0 && forall b :: 0 <= b < pos ==> b in bits
    else
      && free == first - 1 + n1 && 0 <= first && left < n && first + (n - left) <= pos
      && (left > 0 ==> first + (n - left) == pos)
      && (forall b :: 0 <= b < first ==> b in bits)
      && (forall b :: first <= b < first + (n - left) ==> b !in bits)
  }

  /** No run of `n` bits can start at the first clear bit, because it meets a set bit. */
  ghost predicate Stuck(bits: set<int>, n: nat, first: int) {
    && 0 <= first && (forall b :: 0 <= b < first ==> b in bits) && first !in bits
    && exists b :: first <= b < first + n && b in bits
  }

  lemma StuckNoFit(bits: set<int>, total: nat, n: nat, first: int)
    requires Stuck(bits, n, first) && n > 0
    ensures !exists f :: FirstFit(bits, total, n, f)
  {
    forall f ensures !FirstFit(bits, total, n, f) {
      var tried := f in bits;
    }
  }

  /** Set bits of byte `j` from `k0` on until the byte ends or `left` is used up (fs/open.c:318-323). */
  method FillByte(dev: Disk, j: nat, k0: nat, left: nat) returns (ok: bool, left': nat)
    requires dev.Valid() && j < SECTOR_SIZE && k0 < 8 && left > 0
    modifies dev.fsbuf
    ensures ok <==> forall k :: k0 <= k < 8 && k < k0 + left ==> !BitOf(old(dev.fsbuf[j]), k)
    ensures ok ==> left' == if left < 8 - k0 then 0 else left - (8 - k0)
    ensures ok ==> forall k :: 0 <= k < 8 ==>
      BitOf(dev.fsbuf[j], k) == (k0 <= k < k0 + left || BitOf(old(dev.fsbuf[j]), k))
    ensures dev.fsbuf[..] == old(dev.fsbuf[..])[j := dev.fsbuf[j]]
  {
    ghost var b := dev.fsbuf[j];
    var k := k0;
    left' := left;
    while k < 8
      invariant k0 <= k <= 8 && left' == left - (k - k0) && left' > 0
      invariant forall i :: k0 <= i < k ==> !BitOf(b, i)
      invariant forall i :: 0 <= i < 8 ==> BitOf(dev.fsbuf[j], i) == (k0 <= i < k || BitOf(b, i))
      invariant dev.fsbuf[..] == old(dev.fsbuf[..])[j := dev.fsbuf[j]]
    {
      var taken := (dev.fsbuf[j] >> k) & 1 == 1;
      assert taken == BitOf(dev.fsbuf[j], k);
      if taken {
        return false, left';
      }
      WithBitBits(dev.fsbuf[j], k, true);
      dev.fsbuf[j] := WithBit(dev.fsbuf[j], k, true);
      left' := left' - 1;
      if left' == 0 {
        return true, 0;
      }
      k := k + 1;
    }
    ok := true;
  }

  /** The first clear bit of a byte that is not full (fs/open.c:259, 313). */
  method FirstZero(b: byte) returns (k: nat)
    requires b != 0xFF
    ensures k < 8 && !BitOf(b, k) && forall i :: 0 <= i < k ==> BitOf(b, i)
  {
    AllOnes(b);
    k := 0;
    while (b >> k) & 1 != 0
      invariant k < 8 && forall i :: 0 <= i < k ==> BitOf(b, i)
      decreases 8 - k
    {
      assert BitOf(b, k);
      k := k + 1;
    }
  }

  /** One byte of the search (fs/open.c:309-323). */
  method AllocByte(dev: Disk, i: nat, j: nat, n1: int, n: nat, left0: nat, free0: int,
                   ghost d: seq<byte>, ghost base: nat, ghost bytes: nat, ghost first0: int)
      returns (ok: bool, left: nat, free: int, ghost first: int)
    requires dev.Valid() && n1 > 1 && left0 > 0 && j < SECTOR_SIZE
    requires base + bytes <= |d| && (i + 1) * SECTOR_SIZE <= bytes
    requires Progress(Bits(d, base, bytes), (i * SECTOR_SIZE + j) * 8, n, left0, free0, first0, n1)
    requires dev.fsbuf[..SECTOR_SIZE] == Sector(Paint(d, base, first0, first0 + (n - left0), true), base, i)
    modifies dev.fsbuf
    ensures !ok ==> Stuck(Bits(d, base, bytes), n, first)
    ensures ok ==> Progress(Bits(d, base, bytes), (i * SECTOR_SIZE + j + 1) * 8, n, left, free, first, n1)
    ensures ok ==> dev.fsbuf[..SECTOR_SIZE] == Sector(Paint(d, base, first, first + (n - left), true), base, i)
    ensures ok && free0 != 0 ==> free != 0 && first == first0
    ensures ok && free0 == 0 && free != 0 ==> first >= (i * SECTOR_SIZE + j) * 8
  {
    hide Paint, PaintByte, PaintLow, BitOf, Bits, InRun;
    left, free, first := left0, free0, first0;
    var k := 0;
    ghost var bits, y, buf := Bits(d, base, bytes), i * SECTOR_SIZE + j, dev.fsbuf[..SECTOR_SIZE];
    ghost var b := dev.fsbuf[j];
    Untouched(d, base, first0, first0 + (n - left0), true, y);
    assert buf[j] == b == d[base + y];
    forall c | 0 <= c < 8 ensures BitOf(b, c) == (y * 8 + c in bits) { BitsAt(d, base, bytes, y, c); }
    if free == 0 {
      AllOnes(b);
      if dev.fsbuf[j] == 0xFF {
        forall x | y * 8 <= x < y * 8 + 8 ensures x in bits { assert BitOf(b, x - y * 8); }
        return true, left, free, first;
      }
      k := FirstZero(dev.fsbuf[j]);
      free := (i * SECTOR_SIZE + j) * 8 + k - 1 + n1;
      first := y * 8 + k;
      forall x | y * 8 <= x < y * 8 + k ensures x in bits { assert BitOf(b, x - y * 8); }
    }
    ok, left := FillByte(dev, j, k, left);
    if !ok {
      ghost var c :| k <= c < 8 && c < k + left0 && BitOf(b, c);
      assert y * 8 + c in bits;
      assert free0 == 0 ==> !BitOf(b, k);
      return;
    }
    forall x | y * 8 + k <= x < y * 8 + 8 && x < y * 8 + k + left0 ensures x !in bits { assert !BitOf(b, x - y * 8); }
    PaintByteIs(b, dev.fsbuf[j], y * 8, first, first + (n - left), true);
    StepByte(d, base, i, j, first0, first0 + (n - left0), first, first + (n - left), true, dev.fsbuf[j]);
    assert dev.fsbuf[..SECTOR_SIZE] == buf[j := dev.fsbuf[j]];
  }

  /** One sector of the search (fs/open.c:308-324). */
  method AllocInBuffer(dev: Disk, i: nat, n1: int, n: nat, left0: nat, free0: int,
                       ghost d: seq<byte>, ghost base: nat, ghost bytes: nat, ghost first0: int)
      returns (ok: bool, left: nat, free: int, ghost first: int)
    requires dev.Valid() && n1 > 1 && left0 > 0
    requires base + bytes <= |d| && (i + 1) * SECTOR_SIZE <= bytes
    requires Progress(Bits(d, base, bytes), i * SECTOR_BITS, n, left0, free0, first0, n1)
    requires dev.fsbuf[..SECTOR_SIZE] == Sector(Paint(d, base, first0, first0 + (n - left0), true), base, i)
    modifies dev.fsbuf
    ensures !ok ==> Stuck(Bits(d, base, bytes), n, first)
    ensures ok ==> Progress(Bits(d, base, bytes), (i + 1) * SECTOR_BITS, n, left, free, first, n1)
    ensures ok ==> dev.fsbuf[..SECTOR_SIZE] == Sector(Paint(d, base, first, first + (n - left), true), base, i)
    ensures ok && free0 != 0 ==> free != 0 && first == first0
    ensures ok && free0 == 0 && free != 0 ==> first >= i * SECTOR_BITS
  {
    hide Paint, Stuck, Bits;
    ok, left, free, first := true, left0, free0, first0;
    var j := 0;
    while j < SECTOR_SIZE && left > 0
      invariant 0 <= j <= SECTOR_SIZE
      invariant Progress(Bits(d, base, bytes), (i * SECTOR_SIZE + j) * 8, n, left, free, first, n1)
      invariant dev.fsbuf[..SECTOR_SIZE] == Sector(Paint(d, base, first, first + (n - left), true), base, i)
      invariant free0 != 0 ==> free != 0 && first == first0
      invariant free0 == 0 && free != 0 ==> first >= i * SECTOR_BITS
      decreases SECTOR_SIZE - j
    {
      ok, left, free, first := AllocByte(dev, i, j, n1, n, left, free, d, base, bytes, first);
      if !ok {
        return;
      }
      j := j + 1;
    }
  }

  /** One sector of the sector map: read, fill, and write back when the run has begun
      (fs/open.c:305-327). */
  method AllocSector(dev: Disk, sb: SuperBlock, i: nat, n: nat, left0: nat, free0: int, ghost d: seq<byte>,
                     ghost first0: int)
      returns (ok: bool, left: nat, free: int, ghost first: int)
    requires dev.Valid() && sb.Layout(dev.data.Length) && i < sb.nrSmapSects && left0 > 0 && |d| == dev.data.Length
    requires Progress(Bits(d, sb.SmapBase(), sb.SmapBytes()), i * SECTOR_BITS, n, left0, free0, first0, sb.n1stSect)
    requires dev.data[..] == Paint(d, sb.SmapBase(), first0, first0 + (n - left0), true)
    modifies dev.data, dev.fsbuf
    ensures !ok ==> Stuck(Bits(d, sb.SmapBase(), sb.SmapBytes()), n, first)
    ensures ok ==>
      Progress(Bits(d, sb.SmapBase(), sb.SmapBytes()), (i + 1) * SECTOR_BITS, n, left, free, first, sb.n1stSect)
    ensures ok ==> dev.data[..] == Paint(d, sb.SmapBase(), first, first + (n - left), true)
  {
    hide Paint, Stuck, Bits, Sector, Splice;
    ReadSect(dev, sb.SmapSect() + i, sb.SmapBase(), i);
    ok, left, free, first := AllocInBuffer(dev, i, sb.n1stSect, n, left0, free0, d, sb.SmapBase(), sb.SmapBytes(),
      first0);
    if ok && free != 0 {
      WriteSect(dev, sb.SmapSect() + i, sb.SmapBase(), i);
      Flush(d, sb.SmapBase(), i, first0, first0 + (n - left0), first, first + (n - left), true);
    }
  }

  /** `alloc_smap_bit` (fs/open.c:290-336): takes the `n` bits from the first clear bit on, or fails
      an assertion exactly when they are not all clear and on the map. */
  method AllocSmapBit(dev: Disk, sb: SuperBlock, n: nat) returns (ok: bool, sect: int)
    requires dev.Valid() && sb.Layout(dev.data.Length) && n > 0
    modifies dev.data, dev.fsbuf
    ensures ok <==> exists f ::
      FirstFit(Bits(old(dev.data[..]), sb.SmapBase(), sb.SmapBytes()), sb.SmapBytes() * 8, n, f)
    ensures ok ==>
      var first := sect - sb.n1stSect + 1;
      FirstFit(Bits(old(dev.data[..]), sb.SmapBase(), sb.SmapBytes()), sb.SmapBytes() * 8, n, first) &&
      dev.data[..] == Paint(old(dev.data[..]), sb.SmapBase(), first, first + n, true)
  {
    hide Paint, Bits;
    ghost var d := dev.data[..];
    ghost var bits := Bits(d, sb.SmapBase(), sb.SmapBytes());
    ghost var first := 0;
    var left := n;
    var free := 0;
    var i := 0;
    PaintNothing(d, sb.SmapBase(), 0, 0, true);
    while i < sb.nrSmapSects && left > 0
      invariant 0 <= i <= sb.nrSmapSects
      invariant Progress(bits, i * SECTOR_BITS, n, left, free, first, sb.n1stSect)
      invariant dev.data[..] == Paint(d, sb.SmapBase(), first, first + (n - left), true)
      decreases sb.nrSmapSects - i
    {
      ok, left, free, first := AllocSector(dev, sb, i, n, left, free, d, first);
      if !ok {
        StuckNoFit(bits, sb.SmapBytes() * 8, n, first);
        return false, 0;
      }
      i := i + 1;
    }
    ok, sect := left == 0, free;
    if ok {
      assert FirstFit(bits, sb.SmapBytes() * 8, n, first);
    } else {
      forall f ensures !FirstFit(bits, sb.SmapBytes() * 8, n, f) {
        var tried := f in bits;
      }
    }
  }

  /** The scan for a byte that is not full (fs/open.c:253-256). */
  method FirstOpenByte(dev: Disk) returns (j: nat)
    requires dev.Valid()
    ensures j <= SECTOR_SIZE && (j < SECTOR_SIZE ==> dev.fsbuf[..SECTOR_SIZE][j] != 0xFF)
    ensures forall q :: 0 <= q < j ==> dev.fsbuf[..SECTOR_SIZE][q] == 0xFF
  {
    j := 0;
    while j < SECTOR_SIZE
      invariant j <= SECTOR_SIZE && forall q :: 0 <= q < j ==> dev.fsbuf[q] == 0xFF
    {
      if dev.fsbuf[j] != 0xFF {
        return;
      }
      j := j + 1;
    }
  }

  /** Full bytes are runs of set bits. */
  lemma FullBytes(d: seq<byte>, bitmap: seq<byte>, base: nat, j: nat)
    requires base + |bitmap| <= |d| && d[base..base + |bitmap|] == bitmap && j <= |bitmap|
    requires forall q :: 0 <= q < j ==> bitmap[q] == 0xFF
    ensures forall b :: 0 <= b < j * 8 ==> b in Bits(d, base, |bitmap|)
  {
    forall b | 0 <= b < j * 8 ensures b in Bits(d, base, |bitmap|) {
      AllOnes(bitmap[b / 8]);
      assert bitmap[b / 8] == d[base + b / 8];
    }
  }

  /** The first clear bit of a byte that follows full bytes is the first clear bit of the map. */
  lemma OpenByte(d: seq<byte>, bitmap: seq<byte>, base: nat, j: nat, k: nat)
    requires base + |bitmap| <= |d| && d[base..base + |bitmap|] == bitmap && j < |bitmap| && k < 8
    requires forall q :: 0 <= q < j ==> bitmap[q] == 0xFF
    requires !BitOf(bitmap[j], k) && forall i :: 0 <= i < k ==> BitOf(bitmap[j], i)
    ensures FirstFit(Bits(d, base, |bitmap|), |bitmap| * 8, 1, j * 8 + k)
  {
    hide BitOf;
    FullBytes(d, bitmap, base, j);
    assert bitmap[j] == d[base + j];
    BitsAt(d, base, |bitmap|, j, k);
    forall b | j * 8 <= b < j * 8 + k ensures b in Bits(d, base, |bitmap|) {
      BitsAt(d, base, |bitmap|, j, b - j * 8);
    }
  }

  /** Every bit of the inode map is set. */
  ghost predicate Full(bits: set<int>) { forall b :: 0 <= b < SECTOR_BITS ==> b in bits }

  /** A sector with one bit changed is the sector of the map with that bit painted. */
  lemma OneBit(d: seq<byte>, base: nat, nr: nat, v: bool)
    requires base + SECTOR_SIZE <= |d| && nr < SECTOR_BITS
    ensures var buf := Sector(d, base, 0);
      buf[nr / 8 := WithBit(buf[nr / 8], nr % 8, v)] == Sector(Paint(d, base, nr, nr + 1, v), base, 0)
  {
    hide Paint, PaintByte, PaintLow, BitOf, WithBit;
    var buf, j := Sector(d, base, 0), nr / 8;
    var b' := WithBit(buf[j], nr % 8, v);
    WithBitBits(buf[j], nr % 8, v);
    PaintByteIs(d[base + j], b', j * 8, nr, nr + 1, v);
    PaintNothing(d, base, 0, 0, v);
    StepByte(d, base, 0, j, 0, 0, nr, nr + 1, v, b');
  }

  /** Set or clear bit `nr` of the inode map in the buffer and write it back. */
  method PutImapBit(dev: Disk, nr: nat, v: bool)
    requires dev.Valid() && dev.OnDisk(IMAP_SECT, 1) && nr < SECTOR_BITS
    requires dev.fsbuf[..SECTOR_SIZE] == Sector(dev.data[..], IMAP_BASE, 0)
    modifies dev.data, dev.fsbuf
    ensures dev.data[..] == Paint(old(dev.data[..]), IMAP_BASE, nr, nr + 1, v)
  {
    hide Paint, Sector, Splice, WithBit;
    ghost var d, buf := dev.data[..], dev.fsbuf[..SECTOR_SIZE];
    dev.fsbuf[nr / 8] := WithBit(dev.fsbuf[nr / 8], nr % 8, v);
    assert dev.fsbuf[..SECTOR_SIZE] == buf[nr / 8 := dev.fsbuf[nr / 8]];
    OneBit(d, IMAP_BASE, nr, v);
    WriteSect(dev, IMAP_SECT, IMAP_BASE, 0);
    PaintNothing(d, IMAP_BASE, 0, 0, v);
    Flush(d, IMAP_BASE, 0, 0, 0, nr, nr + 1, v);
  }

  /** `alloc_imap_bit` (fs/open.c:242-277): takes the first clear bit of the map's first sector; when
      there is none it returns 0 and changes nothing. */
  method AllocImapBit(dev: Disk, sb: SuperBlock) returns (inodeNr: nat)
    requires dev.Valid() && sb.Layout(dev.data.Length)
    modifies dev.data, dev.fsbuf
    ensures var bits := Bits(old(dev.data[..]), IMAP_BASE, SECTOR_SIZE);
      if Full(bits) then inodeNr == 0 && dev.data[..] == old(dev.data[..])
      else FirstFit(bits, SECTOR_BITS, 1, inodeNr) &&
           dev.data[..] == Paint(old(dev.data[..]), IMAP_BASE, inodeNr, inodeNr + 1, true)
  {
    ghost var d := dev.data[..];
    dev.Read(IMAP_SECT, 1);
    ghost var bitmap := dev.fsbuf[..SECTOR_SIZE];
    var j := FirstOpenByte(dev);
    assert forall q :: 0 <= q < j ==> bitmap[q] == 0xFF;
    if j == SECTOR_SIZE {
      FullBytes(d, bitmap, IMAP_BASE, j);
      return 0;
    }
    var k := FirstZero(dev.fsbuf[j]);
    OpenByte(d, bitmap, IMAP_BASE, j, k);
    inodeNr := j * 8 + k;
    assert inodeNr !in Bits(d, IMAP_BASE, SECTOR_SIZE);
    PutImapBit(dev, inodeNr, true);
  }

  // ---------------------------------------------------------------- release

  /** Clear bit `inodeNr` of the inode map (fs/link.c:49-56); fails when it is clear already. */
  method FreeImapBit(dev: Disk, sb: SuperBlock, inodeNr: nat) returns (ok: bool)
    requires dev.Valid() && sb.Layout(dev.data.Length)
    modifies dev.data, dev.fsbuf
    ensures ok <==> inodeNr in Bits(old(dev.data[..]), IMAP_BASE, SECTOR_SIZE)
    ensures ok ==> dev.data[..] == Paint(old(dev.data[..]), IMAP_BASE, inodeNr, inodeNr + 1, false)
  {
    var byteIdx, bitIdx := inodeNr / 8, inodeNr % 8;
    if byteIdx >= SECTOR_SIZE {
      return false;
    }
    dev.Read(IMAP_SECT, 1);
    BitsAt(dev.data[..], IMAP_BASE, SECTOR_SIZE, byteIdx, bitIdx);
    ok := (dev.fsbuf[byteIdx % SECTOR_SIZE] >> bitIdx) & 1 == 1;
    assert dev.fsbuf[..SECTOR_SIZE][byteIdx] == dev.data[..][IMAP_BASE + byteIdx];
    assert ok == BitOf(dev.data[IMAP_BASE + byteIdx], bitIdx);
    if ok {
      dev.Read(IMAP_SECT, 1);
      PutImapBit(dev, inodeNr, false);
    }
  }

  /** C division by 8, which truncates toward zero. */
  function CDiv8(x: int): int { if x < 0 then -(-x / 8) else x / 8 }

  /** The bits [lo, hi) are set in `d`, counted from `base`. */
  ghost predicate AllSet(d: seq<byte>, base: nat, lo: int, hi: int)
    requires base <= |d| && 0 <= lo && hi <= (|d| - base) * 8
  {
    forall b :: lo <= b < hi ==> BitOf(d[base + b / 8], b % 8)
  }

  /** Where the release stands: the run [lo, cur) is cleared, as far as `hi` on disk and the rest in
      the buffer, which holds sector `i` of the map. */
  ghost predicate Sweep(d: seq<byte>, data: seq<byte>, buf: seq<byte>, base: nat, i: int, lo: int, hi: int, cur: int) {
    && 0 <= lo <= hi <= cur <= (i + 1) * SECTOR_BITS && 0 <= i && base + (i + 1) * SECTOR_SIZE <= |d|
    && (hi == cur || i * SECTOR_BITS <= hi)
    && data == Paint(d, base, lo, hi, false)
    && buf == Sector(Paint(d, base, lo, cur, false), base, i)
  }

  /** "clear the first byte" (fs/link.c:70-73). */
  method ClearHead(dev: Disk, q: nat, k0: nat, n: nat) returns (ok: bool, left: nat)
    requires dev.Valid() && q < SECTOR_SIZE && k0 < 8
    modifies dev.fsbuf
    ensures ok <==> forall k :: k0 <= k < 8 && k < k0 + n ==> BitOf(old(dev.fsbuf[q]), k)
    ensures ok ==> left == if n < 8 - k0 then 0 else n - (8 - k0)
    ensures ok ==> forall k :: 0 <= k < 8 ==>
      BitOf(dev.fsbuf[q], k) == (!(k0 <= k < k0 + n) && BitOf(old(dev.fsbuf[q]), k))
    ensures dev.fsbuf[..] == old(dev.fsbuf[..])[q := dev.fsbuf[q]]
  {
    ghost var b := dev.fsbuf[q];
    var i := k0;
    left := n;
    while i < 8 && left > 0
      invariant k0 <= i <= 8 && left == n - (i - k0)
      invariant forall k :: k0 <= k < i ==> BitOf(b, k)
      invariant forall k :: 0 <= k < 8 ==> BitOf(dev.fsbuf[q], k) == (!(k0 <= k < i) && BitOf(b, k))
      invariant dev.fsbuf[..] == old(dev.fsbuf[..])[q := dev.fsbuf[q]]
      decreases 8 - i
    {
      var held := (dev.fsbuf[q] >> i) & 1 == 1;
      assert held == BitOf(dev.fsbuf[q], i);
      if !held {
        return false, left;
      }
      WithBitBits(dev.fsbuf[q], i, false);
      dev.fsbuf[q] := WithBit(dev.fsbuf[q], i, false);
      i, left := i + 1, left - 1;
    }
    ok := true;
  }

  /** Write the buffered sector of the sector map and read the one after it. */
  method Flip(dev: Disk, sb: SuperBlock, s: nat, ghost d: seq<byte>, ghost lo: int, ghost hi: int, ghost cur: int)
    requires dev.Valid() && sb.Layout(dev.data.Length) && |d| == dev.data.Length
    requires sb.SmapSect() <= s < sb.SmapSect() + sb.nrSmapSects
    requires Sweep(d, dev.data[..], dev.fsbuf[..SECTOR_SIZE], sb.SmapBase(), s - sb.SmapSect(), lo, hi, cur)
    modifies dev.data, dev.fsbuf
    ensures Sweep(d, dev.data[..], dev.fsbuf[..SECTOR_SIZE], sb.SmapBase(), s + 1 - sb.SmapSect(), lo, cur, cur)
  {
    hide Paint, Sector, Splice;
    ghost var i := s - sb.SmapSect();
    WriteSect(dev, s, sb.SmapBase(), i);
    Flush(d, sb.SmapBase(), i, lo, hi, lo, cur, false);
    ReadSect(dev, s + 1, sb.SmapBase(), i + 1);
  }

  /** Past the end of the buffered sector: write it and read the next (fs/link.c:79-83, 89-93). */
  method NextSector(dev: Disk, sb: SuperBlock, s: nat, i: nat, ghost d: seq<byte>, ghost lo: int, ghost hi: int,
                    ghost cur: int)
      returns (s': nat, i': nat, ghost hi': int)
    requires dev.Valid() && sb.Layout(dev.data.Length) && |d| == dev.data.Length && i <= SECTOR_SIZE
    requires sb.SmapSect() <= s && (i == SECTOR_SIZE ==> s < sb.SmapSect() + sb.nrSmapSects)
    requires Sweep(d, dev.data[..], dev.fsbuf[..SECTOR_SIZE], sb.SmapBase(), s - sb.SmapSect(), lo, hi, cur)
    modifies dev.data, dev.fsbuf
    ensures i' < SECTOR_SIZE && s' == (if i == SECTOR_SIZE then s + 1 else s)
      && s' * SECTOR_SIZE + i' == s * SECTOR_SIZE + i
    ensures Sweep(d, dev.data[..], dev.fsbuf[..SECTOR_SIZE], sb.SmapBase(), s' - sb.SmapSect(), lo, hi', cur)
  {
    s', i', hi' := s, i, hi;
    if i == SECTOR_SIZE {
      i' := 0;
      Flip(dev, sb, s, d, lo, hi, cur);
      hi' := cur;
      s' := s + 1;
    }
  }

  /** `fsbuf[i] == 0xFF` and `fsbuf[i] = 0` (fs/link.c:84-85), or the failed assertion. */
  method ClearByte(dev: Disk, i: nat, idx: nat, ghost d: seq<byte>, ghost base: nat, ghost lo: int, ghost cur: int)
      returns (ok: bool)
    requires dev.Valid() && i < SECTOR_SIZE && base + (idx + 1) * SECTOR_SIZE <= |d| && 0 <= lo <= cur
    requires cur == (idx * SECTOR_SIZE + i) * 8
    requires dev.fsbuf[..SECTOR_SIZE] == Sector(Paint(d, base, lo, cur, false), base, idx)
    modifies dev.fsbuf
    ensures ok <==> AllSet(d, base, cur, cur + 8)
    ensures ok ==> dev.fsbuf[..SECTOR_SIZE] == Sector(Paint(d, base, lo, cur + 8, false), base, idx)
  {
    ghost var buf, y := dev.fsbuf[..SECTOR_SIZE], idx * SECTOR_SIZE + i;
    Untouched(d, base, lo, cur, false, y);
    ghost var b := d[base + y];
    assert buf[i] == b;
    AllOnes(b);
    ok := dev.fsbuf[i] == 0xFF;
    if ok {
      forall x | cur <= x < cur + 8 ensures BitOf(d[base + x / 8], x % 8) { assert BitOf(b, x - cur); }
      dev.fsbuf[i] := 0;
      forall k | 0 <= k < 8 ensures !BitOf(0, k) { NoBits(k); }
      PaintByteIs(b, 0, cur, lo, cur + 8, false);
      StepByte(d, base, idx, i, lo, cur, lo, cur + 8, false, 0);
      assert dev.fsbuf[..SECTOR_SIZE] == buf[i := 0];
    } else {
      ghost var k :| 0 <= k < 8 && !BitOf(b, k);
      assert !BitOf(d[base + (cur + k) / 8], (cur + k) % 8);
    }
  }

  /** "clear bytes from the second byte to the second to last" (fs/link.c:77-86). */
  method ClearMiddle(dev: Disk, sb: SuperBlock, s0: nat, i0: nat, count: int, left0: nat, ghost d: seq<byte>,
                     ghost lo: int, ghost hi0: int, ghost cur0: int)
      returns (ok: bool, s: nat, i: nat, left: nat, ghost hi: int, ghost cur: int)
    requires dev.Valid() && sb.Layout(dev.data.Length) && |d| == dev.data.Length && i0 <= SECTOR_SIZE
    requires sb.SmapSect() <= s0 < sb.SmapSect() + sb.nrSmapSects
    requires Sweep(d, dev.data[..], dev.fsbuf[..SECTOR_SIZE], sb.SmapBase(), s0 - sb.SmapSect(), lo, hi0, cur0)
    requires count > 0 ==> cur0 == ((s0 - sb.SmapSect()) * SECTOR_SIZE + i0) * 8 && 8 * count <= left0
    requires cur0 + left0 <= sb.SmapBytes() * 8 && AllSet(d, sb.SmapBase(), lo, cur0)
    modifies dev.data, dev.fsbuf
    ensures !ok ==> !AllSet(d, sb.SmapBase(), lo, cur0 + left0)
    ensures ok ==> var c := if count > 0 then count else 0;
      && left == left0 - 8 * c && cur == cur0 + 8 * c && AllSet(d, sb.SmapBase(), lo, cur)
      && i <= SECTOR_SIZE && s * SECTOR_SIZE + i == s0 * SECTOR_SIZE + i0 + c
      && sb.SmapSect() <= s < sb.SmapSect() + sb.nrSmapSects
      && Sweep(d, dev.data[..], dev.fsbuf[..SECTOR_SIZE], sb.SmapBase(), s - sb.SmapSect(), lo, hi, cur)
  {
    hide Paint, Sector;
    ok, s, i, left, hi, cur := true, s0, i0, left0, hi0, cur0;
    var k := 0;
    while k < count
      invariant 0 <= k && (k <= count || (count < 0 && k == 0))
      invariant left == left0 - 8 * k && cur == cur0 + 8 * k && AllSet(d, sb.SmapBase(), lo, cur)
      invariant i <= SECTOR_SIZE && s * SECTOR_SIZE + i == s0 * SECTOR_SIZE + i0 + k
      invariant sb.SmapSect() <= s < sb.SmapSect() + sb.nrSmapSects
      invariant Sweep(d, dev.data[..], dev.fsbuf[..SECTOR_SIZE], sb.SmapBase(), s - sb.SmapSect(), lo, hi, cur)
      decreases count - k
    {
      s, i, hi := NextSector(dev, sb, s, i, d, lo, hi, cur);
      ok := ClearByte(dev, i, s - sb.SmapSect(), d, sb.SmapBase(), lo, cur);
      if !ok {
        return;
      }
      cur := cur + 8;
      k, i, left := k + 1, i + 1, left - 8;
    }
  }

  /** "clear the last byte" (fs/link.c:94-96): the low `left` bits of byte `i`, which must be set. */
  method ClearTail(dev: Disk, i: nat, left: nat, idx: nat, ghost d: seq<byte>, ghost base: nat, ghost lo: int,
                   ghost cur: int)
      returns (ok: bool)
    requires dev.Valid() && i < SECTOR_SIZE && left < 8 && base + (idx + 1) * SECTOR_SIZE <= |d| && 0 <= lo <= cur
    requires left > 0 ==> cur == (idx * SECTOR_SIZE + i) * 8
    requires cur + left <= (|d| - base) * 8
    requires dev.fsbuf[..SECTOR_SIZE] == Sector(Paint(d, base, lo, cur, false), base, idx)
    modifies dev.fsbuf
    ensures ok <==> AllSet(d, base, cur, cur + left)
    ensures ok ==> dev.fsbuf[..SECTOR_SIZE] == Sector(Paint(d, base, lo, cur + left, false), base, idx)
  {
    ghost var buf, y := dev.fsbuf[..SECTOR_SIZE], idx * SECTOR_SIZE + i;
    var b := dev.fsbuf[i];
    if left > 0 { Untouched(d, base, lo, cur, false, y); }
    assert buf[i] == b && (left > 0 ==> b == d[base + y]);
    MaskTest(b, left);
    ok := b & LowMask(left) == LowMask(left);
    if ok {
      forall x | cur <= x < cur + left ensures BitOf(d[base + x / 8], x % 8) { assert BitOf(b, x - cur); }
      dev.fsbuf[i] := b & ((0xFF as byte) << left);
      MaskedByte(b, left, cur, lo, dev.fsbuf[i]);
      if left > 0 {
        StepByte(d, base, idx, i, lo, cur, lo, cur + left, false, dev.fsbuf[i]);
      }
      assert dev.fsbuf[..SECTOR_SIZE] == buf[i := dev.fsbuf[i]];
    } else {
      ghost var k :| 0 <= k < left && !BitOf(b, k);
      assert !BitOf(d[base + (cur + k) / 8], (cur + k) % 8);
    }
  }

  /** The mask of the last byte clears its first `left` bits. */
  lemma MaskedByte(b: byte, left: nat, cur: int, lo: int, b': byte)
    requires left < 8 && lo <= cur && b' == b & ((0xFF as byte) << left)
    ensures b' == PaintByte(b, cur, lo, cur + left, false)
    ensures left == 0 ==> b' == b
  {
    forall k | 0 <= k < 8 ensures BitOf(b', k) == (k >= left && BitOf(b, k)) { MaskClear(b, left, k); }
    PaintByteIs(b, b', cur, lo, cur + left, false);
    if left == 0 { SameBits(b', b); }
  }

  /** Clearing the bits [k0, k0 + n) of byte `q` clears the start of the run. */
  lemma HeadCleared(d: seq<byte>, base: nat, idx: nat, q: nat, k0: nat, n: nat, buf: seq<byte>, b': byte)
    requires base + (idx + 1) * SECTOR_SIZE <= |d| && q < SECTOR_SIZE && k0 < 8 && buf == Sector(d, base, idx)
    requires forall k :: 0 <= k < 8 ==> BitOf(b', k) == (!(k0 <= k < k0 + n) && BitOf(buf[q], k))
    ensures var first := (idx * SECTOR_SIZE + q) * 8 + k0;
      buf[q := b'] == Sector(Paint(d, base, first, first + Min(n, 8 - k0), false), base, idx)
  {
    hide Paint, PaintByte, PaintLow, BitOf;
    var y := idx * SECTOR_SIZE + q;
    var first := y * 8 + k0;
    var cur := first + Min(n, 8 - k0);
    PaintNothing(d, base, first, first, false);
    PaintByteIs(d[base + y], b', y * 8, first, cur, false);
    StepByte(d, base, idx, q, first, first, first, cur, false, b');
  }

  /** The bits [k0, k0 + n) of byte `q` of the buffered sector, as bits of the map. */
  lemma HeadSet(d: seq<byte>, base: nat, idx: nat, q: nat, k0: nat, n: nat, b: byte)
    requires base + (idx + 1) * SECTOR_SIZE <= |d| && q < SECTOR_SIZE && k0 < 8 && b == Sector(d, base, idx)[q]
    ensures var first := (idx * SECTOR_SIZE + q) * 8 + k0;
      AllSet(d, base, first, first + Min(n, 8 - k0)) <==> forall k :: k0 <= k < 8 && k < k0 + n ==> BitOf(b, k)
  {
    hide BitOf;
    var y := idx * SECTOR_SIZE + q;
    var first := y * 8 + k0;
    if AllSet(d, base, first, first + Min(n, 8 - k0)) {
      forall k | k0 <= k < 8 && k < k0 + n ensures BitOf(b, k) {
        assert (y * 8 + k) / 8 == y && (y * 8 + k) % 8 == k;
      }
    }
  }

  /** The first byte of the run, cleared in the buffer; nothing is on disk yet (fs/link.c:66-73). */
  method ClearFirst(dev: Disk, sb: SuperBlock, first: nat, n: nat) returns (ok: bool, left: nat, ghost cur: int)
    requires dev.Valid() && sb.Layout(dev.data.Length) && first < sb.SmapBytes() * 8 && first + n <= sb.SmapBytes() * 8
    modifies dev.fsbuf
    ensures cur == first + Min(n, 8 - first % 8) && (ok ==> left == first + n - cur)
    ensures ok <==> AllSet(dev.data[..], sb.SmapBase(), first, cur)
    ensures ok ==>
      Sweep(dev.data[..], dev.data[..], dev.fsbuf[..SECTOR_SIZE], sb.SmapBase(), first / SECTOR_BITS, first, first, cur)
  {
    hide Paint, BitOf, AllSet, Sector;
    ghost var d, base, idx := dev.data[..], sb.SmapBase(), first / SECTOR_BITS;
    var q, k0 := first / 8 % SECTOR_SIZE, first % 8;
    assert first == (idx * SECTOR_SIZE + q) * 8 + k0;
    cur := first + Min(n, 8 - k0);
    ReadSect(dev, sb.SmapSect() + first / 8 / SECTOR_SIZE, base, idx);
    ghost var buf := dev.fsbuf[..SECTOR_SIZE];
    HeadSet(d, base, idx, q, k0, n, buf[q]);
    ok, left := ClearHead(dev, q, k0, n);
    if ok {
      PaintNothing(d, base, first, first, false);
      HeadCleared(d, base, idx, q, k0, n, buf, dev.fsbuf[q]);
      assert dev.fsbuf[..SECTOR_SIZE] == buf[q := dev.fsbuf[q]];
    }
  }

  lemma AllSetIsRange(d: seq<byte>, base: nat, bytes: nat, lo: nat, n: nat)
    requires base + bytes <= |d| && lo + n <= bytes * 8
    ensures AllSet(d, base, lo, lo + n) <==> Range(lo, n) <= Bits(d, base, bytes)
  {
    hide BitOf;
    if Range(lo, n) <= Bits(d, base, bytes) {
      forall b | lo <= b < lo + n ensures BitOf(d[base + b / 8], b % 8) {
        assert b in Range(lo, n);
      }
    }
  }

  lemma AllSetJoin(d: seq<byte>, base: nat, lo: int, mid: int, hi: int)
    requires base <= |d| && 0 <= lo <= mid <= hi <= (|d| - base) * 8
    ensures AllSet(d, base, lo, hi) <==> AllSet(d, base, lo, mid) && AllSet(d, base, mid, hi)
  {
  }

  /** The last byte, and the last sector back to disk (fs/link.c:94-97). */
  method ClearLast(dev: Disk, sb: SuperBlock, s: nat, i: nat, left: nat, ghost d: seq<byte>,
                   ghost lo: int, ghost hi: int, ghost cur: int)
      returns (ok: bool)
    requires dev.Valid() && sb.Layout(dev.data.Length) && |d| == dev.data.Length && i < SECTOR_SIZE && left < 8
    requires sb.SmapSect() <= s
    requires Sweep(d, dev.data[..], dev.fsbuf[..SECTOR_SIZE], sb.SmapBase(), s - sb.SmapSect(), lo, hi, cur)
    requires left > 0 ==> cur == ((s - sb.SmapSect()) * SECTOR_SIZE + i) * 8
    requires cur + left <= sb.SmapBytes() * 8
    modifies dev.data, dev.fsbuf
    ensures ok <==> AllSet(d, sb.SmapBase(), cur, cur + left)
    ensures ok ==> dev.data[..] == Paint(d, sb.SmapBase(), lo, cur + left, false)
  {
    hide Paint, AllSet, Splice, Sector;
    ok := ClearTail(dev, i, left, s - sb.SmapSect(), d, sb.SmapBase(), lo, cur);
    if ok {
      WriteSect(dev, s, sb.SmapBase(), s - sb.SmapSect());
      Flush(d, sb.SmapBase(), s - sb.SmapSect(), lo, hi, lo, cur + left, false);
    }
  }

  /** The whole bytes and the last byte, after the first (fs/link.c:76-97). */
  method ClearRest(dev: Disk, sb: SuperBlock, s0: nat, i0: nat, count: int, left0: nat, ghost d: seq<byte>,
                   ghost lo: nat, ghost cur0: int)
      returns (ok: bool)
    requires dev.Valid() && sb.Layout(dev.data.Length) && |d| == dev.data.Length && i0 <= SECTOR_SIZE
    requires sb.SmapSect() <= s0 < sb.SmapSect() + sb.nrSmapSects && lo <= cur0
    requires Sweep(d, dev.data[..], dev.fsbuf[..SECTOR_SIZE], sb.SmapBase(), s0 - sb.SmapSect(), lo, lo, cur0)
    requires left0 > 0 ==> cur0 == ((s0 - sb.SmapSect()) * SECTOR_SIZE + i0) * 8
    requires if count > 0 then 8 * count <= left0 < 8 * count + 8 else left0 < 8
    requires cur0 + left0 <= sb.SmapBytes() * 8 && AllSet(d, sb.SmapBase(), lo, cur0)
    modifies dev.data, dev.fsbuf
    ensures ok <==> AllSet(d, sb.SmapBase(), lo, cur0 + left0)
    ensures ok ==> dev.data[..] == Paint(d, sb.SmapBase(), lo, cur0 + left0, false)
  {
    hide Paint, AllSet, Sweep;
    var s, i, left;
    ghost var hi, cur;
    ok, s, i, left, hi, cur := ClearMiddle(dev, sb, s0, i0, count, left0, d, lo, lo, cur0);
    if !ok {
      return;
    }
    s, i, hi := NextSector(dev, sb, s, i, d, lo, hi, cur);
    AllSetJoin(d, sb.SmapBase(), lo, cur, cur0 + left0);
    ok := ClearLast(dev, sb, s, i, left, d, lo, hi, cur);
  }

  /** Release of an extent (fs/link.c:58-97): the three loops succeed exactly when every bit of the
      extent is set, and then clear those bits and nothing else. */
  method FreeExtent(dev: Disk, sb: SuperBlock, startSect: int, n: nat) returns (ok: bool)
    requires dev.Valid() && sb.Layout(dev.data.Length)
    requires var first := startSect - sb.n1stSect + 1;
      0 <= first < sb.SmapBytes() * 8 && first + n <= sb.SmapBytes() * 8
    modifies dev.data, dev.fsbuf
    ensures var first := startSect - sb.n1stSect + 1;
      ok <==> Range(first, n) <= Bits(old(dev.data[..]), sb.SmapBase(), sb.SmapBytes())
    ensures var first := startSect - sb.n1stSect + 1;
      ok ==> dev.data[..] == Paint(old(dev.data[..]), sb.SmapBase(), first, first + n, false)
  {
    hide Paint, AllSet, Bits, Sweep;
    var bitIdx := startSect - sb.n1stSect + 1;
    var byteIdx := bitIdx / 8;
    var byteCnt := CDiv8(n - (8 - bitIdx % 8));
    var s := sb.SmapSect() + byteIdx / SECTOR_SIZE;
    ghost var d, base := dev.data[..], sb.SmapBase();
    AllSetIsRange(d, base, sb.SmapBytes(), bitIdx, n);
    var left;
    ghost var cur;
    ok, left, cur := ClearFirst(dev, sb, bitIdx, n);
    AllSetJoin(d, base, bitIdx, cur, bitIdx + n);
    if ok {
      ok := ClearRest(dev, sb, s, byteIdx % SECTOR_SIZE + 1, byteCnt, left, d, bitIdx, cur);
    }
  }

  /** What `alloc_smap_bit` sets, the three loops of `do_unlink` find set, and clearing it restores the
      disk bit for bit. */
  lemma AllocFree(d: seq<byte>, base: nat, bytes: nat, n: nat, first: nat)
    requires base + bytes <= |d| && FirstFit(Bits(d, base, bytes), bytes * 8, n, first)
    ensures Range(first, n) <= Bits(Paint(d, base, first, first + n, true), base, bytes)
    ensures Paint(Paint(d, base, first, first + n, true), base, first, first + n, false) == d
  {
    hide Paint, Bits;
    PaintBits(d, base, bytes, first, n, true);
    PaintBack(d, base, bytes, first, n, true);
  }
}
