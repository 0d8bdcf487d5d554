/** The disk under the file system, one shared sector buffer `fsbuf`, and bit-level facts about
    the bytes of the two bitmaps. `rw_sector` is a synchronous copy. */
module BlockDevice {
  import opened Const

  type byte = bv8

  const FSBUF_SIZE := 0x40000

  // ---------------------------------------------------------------- bits of a byte

  predicate BitOf(b: byte, k: nat)
    requires k < 8
  {
    (b >> k) & 1 == 1
  }

  lemma SetBit(b: byte, k: nat)
    requires k < 8
    ensures forall j :: 0 <= j < 8 ==> BitOf(b | (1 << k), j) == (j == k || BitOf(b, j))
  {
  }

  lemma ClearBit(b: byte, k: nat)
    requires k < 8
    ensures forall j :: 0 <= j < 8 ==> BitOf(b & !(1 << k), j) == (j != k && BitOf(b, j))
  {
  }

  lemma AllOnes(b: byte)
    ensures b == 0xFF <==> forall j :: 0 <= j < 8 ==> BitOf(b, j)
  {
    if forall j :: 0 <= j < 8 ==> BitOf(b, j) {
      assert BitOf(b, 0) && BitOf(b, 1) && BitOf(b, 2) && BitOf(b, 3);
      assert BitOf(b, 4) && BitOf(b, 5) && BitOf(b, 6) && BitOf(b, 7);
    }
  }

  lemma NoBits(j: nat)
    requires j < 8
    ensures !BitOf(0, j)
  {
  }

  /** The low `n` bits. */
  function LowMask(n: nat): byte
    requires n <= 8
  {
    !((0xFF as byte) << n)
  }

  lemma LowMaskBits(n: nat, j: nat)
    requires n < 8 && j < 8
    ensures BitOf(LowMask(n), j) == (j < n)
  {
  }

  lemma AndBits(a: byte, b: byte, j: nat)
    requires j < 8
    ensures BitOf(a & b, j) == (BitOf(a, j) && BitOf(b, j))
  {
  }

  lemma SameBits(a: byte, b: byte)
    requires forall j :: 0 <= j < 8 ==> BitOf(a, j) == BitOf(b, j)
    ensures a == b
  {
    assert BitOf(a, 0) == BitOf(b, 0) && BitOf(a, 1) == BitOf(b, 1) && BitOf(a, 2) == BitOf(b, 2);
    assert BitOf(a, 3) == BitOf(b, 3) && BitOf(a, 4) == BitOf(b, 4) && BitOf(a, 5) == BitOf(b, 5);
    assert BitOf(a, 6) == BitOf(b, 6) && BitOf(a, 7) == BitOf(b, 7);
  }

  /** The test of the last byte of an extent passes exactly when its low `n` bits are set. */
  lemma MaskTest(b: byte, n: nat)
    requires n < 8
    ensures b & LowMask(n) == LowMask(n) <==> forall j :: 0 <= j < n ==> BitOf(b, j)
  {
    forall j | 0 <= j < 8 ensures BitOf(b & LowMask(n), j) == (BitOf(b, j) && j < n) {
      AndBits(b, LowMask(n), j);
      LowMaskBits(n, j);
    }
    if forall j :: 0 <= j < n ==> BitOf(b, j) {
      forall j | 0 <= j < 8 ensures BitOf(b & LowMask(n), j) == BitOf(LowMask(n), j) { LowMaskBits(n, j); }
      SameBits(b & LowMask(n), LowMask(n));
    }
    if b & LowMask(n) == LowMask(n) {
      forall j | 0 <= j < n ensures BitOf(b, j) { LowMaskBits(n, j); }
    }
  }

  lemma MaskClear(b: byte, n: nat, j: nat)
    requires n < 8 && j < 8
    ensures BitOf(b & ((0xFF as byte) << n), j) == (j >= n && BitOf(b, j))
  {
  }

  // ---------------------------------------------------------------- the disk

  /** `d` with `b` in place of the bytes at `p`. */
  function Splice(d: seq<byte>, p: nat, b: seq<byte>): (r: seq<byte>)
    requires p + |b| <= |d|
    ensures |r| == |d|
  {
    d[..p] + b + d[p + |b|..]
  }

  lemma SpliceNothing(d: seq<byte>, p: nat, b: seq<byte>)
    requires p <= |d| && |b| == 0
    ensures Splice(d, p, b) == d
  {
  }

  lemma SpliceTwice(b: seq<byte>, p: nat, x: seq<byte>, y: seq<byte>)
    requires p + |x| + |y| <= |b|
    ensures Splice(Splice(b, p, x), p + |x|, y) == Splice(b, p, x + y)
  {
  }

  lemma SplicePrefix(buf: seq<byte>, p: nat, b: seq<byte>, n: nat)
    requires p + |b| <= n <= |buf|
    ensures Splice(buf, p, b)[..n] == Splice(buf[..n], p, b)
  {
  }

  /** Read, change and write back one sector: the disk changes where the buffer did. */
  lemma RewriteSector(d: seq<byte>, buf: seq<byte>, at: nat, p: nat, b: seq<byte>)
    requires at + |buf| <= |d| && buf == d[at..at + |buf|] && p + |b| <= |buf|
    ensures Splice(d, at, Splice(buf, p, b)) == Splice(d, at + p, b)
  {
  }

  class Disk {
    const data: array<byte>
    const fsbuf: array<byte>

    ghost predicate Valid()
      reads this
    {
      data != fsbuf && fsbuf.Length == FSBUF_SIZE && data.Length % SECTOR_SIZE == 0
    }

    /** Sectors [sect, sect + count) exist. */
    predicate OnDisk(sect: int, count: int) {
      0 <= sect && 0 <= count && (sect + count) * SECTOR_SIZE <= data.Length
    }

    constructor (contents: seq<byte>)
      requires |contents| % SECTOR_SIZE == 0
      ensures Valid() && data[..] == contents && fresh(data) && fresh(fsbuf)
    {
      data := new byte[|contents|](i requires 0 <= i < |contents| => contents[i]);
      fsbuf := new byte[FSBUF_SIZE];
    }

    /** `rw_sector(DEV_READ, ...)`: `count` sectors from `sect` into the buffer. */
    method Read(sect: nat, count: nat)
      requires Valid() && OnDisk(sect, count) && count * SECTOR_SIZE <= FSBUF_SIZE
      modifies fsbuf
      ensures fsbuf[..count * SECTOR_SIZE] == data[sect * SECTOR_SIZE..(sect + count) * SECTOR_SIZE]
      ensures fsbuf[count * SECTOR_SIZE..] == old(fsbuf[count * SECTOR_SIZE..])
    {
      forall k | 0 <= k < count * SECTOR_SIZE {
        fsbuf[k] := data[sect * SECTOR_SIZE + k];
      }
    }

    /** `rw_sector(DEV_WRITE, ...)`: the first `count` sectors of the buffer to `sect`. */
    method Write(sect: nat, count: nat)
      requires Valid() && OnDisk(sect, count) && count * SECTOR_SIZE <= FSBUF_SIZE
      modifies data
      ensures data[..] == Splice(old(data[..]), sect * SECTOR_SIZE, fsbuf[..count * SECTOR_SIZE])
    {
      forall p | sect * SECTOR_SIZE <= p < (sect + count) * SECTOR_SIZE {
        data[p] := fsbuf[p - sect * SECTOR_SIZE];
      }
    }
  }
}
