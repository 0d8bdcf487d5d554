/** The regular-file branch of `do_rdwt` (fs/read_write.c:44-92): whole chunks of sectors pass through the
    buffer, and what comes of it is a splice of bytes. */
module ReadWrite {
  import opened Const
  import opened BlockDevice
  import opened Inodes

  const CHUNK := 512

  /** A read stops at the size of the file, a write at the end of its extent (fs/read_write.c:48-54). */
  function Limit(x: Inode, write: bool): nat { if write then x.nrSects * SECTOR_SIZE else x.size }

  function PosEnd(x: Inode, pos: nat, len: nat, write: bool): nat { Min(pos + len, Limit(x, write)) }

  /** How many sectors lie between the first and the last one, inclusive; not positive when the position
      is in a sector behind the limit. */
  function Sectors(x: Inode, pos: nat, len: nat, write: bool): int {
    PosEnd(x, pos, len, write) / SECTOR_SIZE - pos / SECTOR_SIZE + 1
  }

  /** The sectors that the loop goes through: only whole chunks, so it may run over the last one. */
  function Window(n: int): (k: nat)
    ensures n <= k && (n <= CHUNK ==> k == Max(n, 0)) && (n > 0 ==> k < n + CHUNK)
  {
    if n <= 0 then 0 else if n <= CHUNK then n else (n + CHUNK - 1) / CHUNK * CHUNK
  }

  function Max(a: int, b: int): int { if a < b then b else a }

  /** The number of bytes moved. */
  function Count(x: Inode, pos: nat, len: nat, write: bool): nat {
    var k := Window(Sectors(x, pos, len, write));
    if k == 0 then 0 else Min(len, k * SECTOR_SIZE - pos % SECTOR_SIZE)
  }

  /** The clamp counts sectors only: the bytes moved stay within the limit exactly when the request did,
      and then all of them are moved. */
  lemma CountWithin(x: Inode, pos: nat, len: nat, write: bool)
    ensures var end := if write then x.nrSects * SECTOR_SIZE else x.size;
      && (pos + Count(x, pos, len, write) <= end <==> pos + len <= end)
      && (pos + len <= end ==> Count(x, pos, len, write) == len)
  {
    var n := Sectors(x, pos, len, write);
    var e := PosEnd(x, pos, len, write);
    assert pos == pos / SECTOR_SIZE * SECTOR_SIZE + pos % SECTOR_SIZE;
    assert e < (e / SECTOR_SIZE + 1) * SECTOR_SIZE;
    if n > 0 {
      assert Window(n) * SECTOR_SIZE - pos % SECTOR_SIZE >= n * SECTOR_SIZE - pos % SECTOR_SIZE > e - pos;
    }
  }

  /** What a request that does not end within the limit moves: nothing from a position in a sector behind it; else
      what there is up to the end of the sector in which the limit lies, or, when there are more than 512 sectors to
      it, up to the end of the last whole chunk of 512. */
  lemma CountAcross(x: Inode, pos: nat, len: nat, write: bool)
    ensures var end := if write then x.nrSects * 512 else x.size;
      pos + len > end ==>
        var n := end / 512 - pos / 512 + 1;
        Count(x, pos, len, write) ==
          if n <= 0 then 0
          else if n <= 512 then Min(len, (end / 512 + 1) * 512 - pos)
          else Min(len, (pos / 512 + (n + 511) / 512 * 512) * 512 - pos)
  {
    assert pos == pos / SECTOR_SIZE * SECTOR_SIZE + pos % SECTOR_SIZE;
  }

  /** A transfer within an extent that ends a chunk before the end of the device stays on the device. */
  lemma WindowOnDisk(dev: Disk, x: Inode, pos: nat, len: nat, write: bool)
    requires pos + len <= x.nrSects * SECTOR_SIZE && dev.OnDisk(x.startSect, x.nrSects + CHUNK)
    ensures dev.OnDisk(x.startSect + pos / SECTOR_SIZE, Window(Sectors(x, pos, len, write)))
  {
    var e := PosEnd(x, pos, len, write);
    assert e / SECTOR_SIZE <= x.nrSects;
  }

  /** One turn of the loop on the way in: part of the buffer to the user (fs/read_write.c:64-69). */
  method ReadChunk(dev: Disk, i: nat, chunk: nat, off: nat, buf: array<byte>, done: nat, bytes: nat)
    requires dev.Valid() && buf != dev.fsbuf && buf != dev.data && chunk <= CHUNK && dev.OnDisk(i, chunk)
    requires off + bytes <= chunk * SECTOR_SIZE && done + bytes <= buf.Length
    modifies dev.fsbuf, buf
    ensures i * SECTOR_SIZE + off + bytes <= dev.data.Length
    ensures buf[..] == Splice(old(buf[..]), done, dev.data[..][i * SECTOR_SIZE + off..i * SECTOR_SIZE + off + bytes])
  {
    dev.Read(i, chunk);
    ghost var s := dev.fsbuf[..chunk * SECTOR_SIZE];
    forall k | done <= k < done + bytes {
      buf[k] := dev.fsbuf[off + k - done];
    }
    assert forall k :: 0 <= k < chunk * SECTOR_SIZE ==> s[k] == dev.data[i * SECTOR_SIZE + k];
  }

  /** One turn of the loop on the way out: read, overlay, write back (fs/read_write.c:64, 71-79). */
  method WriteChunk(dev: Disk, i: nat, chunk: nat, off: nat, buf: array<byte>, done: nat, bytes: nat)
    requires dev.Valid() && buf != dev.fsbuf && buf != dev.data && chunk <= CHUNK && dev.OnDisk(i, chunk)
    requires off + bytes <= chunk * SECTOR_SIZE && done + bytes <= buf.Length
    modifies dev.fsbuf, dev.data
    ensures i * SECTOR_SIZE + off + bytes <= dev.data.Length
    ensures dev.data[..] == Splice(old(dev.data[..]), i * SECTOR_SIZE + off, buf[done..done + bytes])
  {
    hide Splice;
    ghost var d, piece := dev.data[..], buf[done..done + bytes];
    dev.Read(i, chunk);
    ghost var s := dev.fsbuf[..];
    CopyIn(dev, off, buf, done, bytes);
    SplicePrefix(s, off, piece, chunk * SECTOR_SIZE);
    dev.Write(i, chunk);
    RewriteSector(d, s[..chunk * SECTOR_SIZE], i * SECTOR_SIZE, off, piece);
  }

  /** `phys_copy` from the user into the buffer. */
  method CopyIn(dev: Disk, off: nat, buf: array<byte>, done: nat, bytes: nat)
    requires dev.Valid() && buf != dev.fsbuf && buf != dev.data && off + bytes <= FSBUF_SIZE
      && done + bytes <= buf.Length
    modifies dev.fsbuf
    ensures dev.fsbuf[..] == Splice(old(dev.fsbuf[..]), off, buf[done..done + bytes])
  {
    forall k | off <= k < off + bytes {
      dev.fsbuf[k] := buf[done + k - off];
    }
  }

  /** The disk with `b` written at `p`; nothing is written where there is nothing to write. */
  function Overlay(d: seq<byte>, p: nat, b: seq<byte>): (r: seq<byte>)
    requires |b| == 0 || p + |b| <= |d|
    ensures |r| == |d|
  {
    if |b| == 0 then d else Splice(d, p, b)
  }

  function Stretch(d: seq<byte>, p: nat, n: nat): (r: seq<byte>)
    requires n == 0 || p + n <= |d|
    ensures |r| == n
  {
    if n == 0 then [] else d[p..p + n]
  }

  /** Where the loop stands when `k` sectors of the window are behind it. */
  predicate Turn(n: int, k: int, off: nat, len: nat, done: nat) {
    && 0 <= k && off < SECTOR_SIZE && done == (if k == 0 then 0 else Min(len, k * SECTOR_SIZE - off))
    && (if n <= CHUNK then k == 0 || k == n else k % CHUNK == 0 && k <= Window(n))
  }

  lemma FirstTurn(n: int, off: nat, len: nat)
    requires off < SECTOR_SIZE
    ensures Turn(n, 0, off, len, 0)
  {
  }

  lemma NextTurn(n: int, k: int, off: nat, len: nat, done: nat) returns (bytes: nat)
    requires Turn(n, k, off, len, done) && k < n
    ensures var chunk, o := Min(n, CHUNK), if k == 0 then off else 0;
      && bytes == Min(len - done, chunk * SECTOR_SIZE - o) && k + chunk <= Window(n)
      && Turn(n, k + chunk, off, len, done + bytes) && (bytes > 0 ==> k * SECTOR_SIZE + o == off + done)
  {
    var chunk, o := Min(n, CHUNK), if k == 0 then off else 0;
    bytes := Min(len - done, chunk * SECTOR_SIZE - o);
  }

  lemma LastTurn(n: int, k: int, off: nat, len: nat, done: nat)
    requires Turn(n, k, off, len, done) && k >= n
    ensures k == Window(n) || (n <= 0 && k == 0)
    ensures done == if Window(n) == 0 then 0 else Min(len, Window(n) * SECTOR_SIZE - off)
  {
  }

  /** The disk `data` and the user's buffer `buf` after `moved` bytes, from what they were, `d` and `u`. */
  predicate Moved(d: seq<byte>, u: seq<byte>, base: nat, write: bool, moved: nat, data: seq<byte>, buf: seq<byte>) {
    && moved <= |u| && (moved == 0 || base + moved <= |d|)
    && (if write then buf == u && data == Overlay(d, base, u[..moved])
        else data == d && buf == Stretch(d, base, moved) + u[moved..])
  }

  /** One turn of the loop (fs/read_write.c:63-80). */
  method MoveChunk(dev: Disk, i: nat, chunk: nat, off: nat, write: bool, buf: array<byte>, moved: nat, bytes: nat,
                   ghost d: seq<byte>, ghost u: seq<byte>, ghost base: nat)
    requires dev.Valid() && buf != dev.fsbuf && buf != dev.data && chunk <= CHUNK && dev.OnDisk(i, chunk)
    requires off + bytes <= chunk * SECTOR_SIZE && moved + bytes <= buf.Length == |u| && |d| == dev.data.Length
    requires Moved(d, u, base, write, moved, dev.data[..], buf[..])
      && (bytes > 0 ==> i * SECTOR_SIZE + off == base + moved)
    modifies dev.data, dev.fsbuf, buf
    ensures Moved(d, u, base, write, moved + bytes, dev.data[..], buf[..])
  {
    hide Splice, Overlay, Stretch;
    if write {
      WriteChunk(dev, i, chunk, off, buf, moved, bytes);
      assert buf[moved..moved + bytes] == u[moved..moved + bytes];
      OverlayMore(d, base, u, moved, bytes, i * SECTOR_SIZE + off);
    } else {
      ReadChunk(dev, i, chunk, off, buf, moved, bytes);
      StretchMore(d, base, u, moved, bytes, i * SECTOR_SIZE + off);
    }
  }

  /** The loop of fs/read_write.c:47-91 on `len` bytes of the user's buffer. */
  method Transfer(dev: Disk, x: Inode, pos: nat, len: nat, write: bool, buf: array<byte>) returns (moved: nat)
    requires dev.Valid() && buf != dev.fsbuf && buf != dev.data && len <= buf.Length
    requires dev.OnDisk(x.startSect + pos / SECTOR_SIZE, Window(Sectors(x, pos, len, write)))
    modifies dev.data, dev.fsbuf, buf
    ensures moved == Count(x, pos, len, write) <= len
    ensures Moved(old(dev.data[..]), old(buf[..]), x.startSect * SECTOR_SIZE + pos, write, moved, dev.data[..], buf[..])
  {
    hide Moved, Turn, Window;
    ghost var d, u := dev.data[..], buf[..];
    var posEnd := if write then Min(pos + len, x.nrSects * SECTOR_SIZE) else Min(pos + len, x.size);
    var off := pos % SECTOR_SIZE;
    var first := x.startSect + pos / SECTOR_SIZE;
    var last := x.startSect + posEnd / SECTOR_SIZE;
    var chunk := Min(last - first + 1, CHUNK);
    var left, i := len, first;
    moved := 0;
    ghost var n, off0, base := last - first + 1, off, x.startSect * SECTOR_SIZE + pos;
    MovedNothing(d, u, base, write);
    FirstTurn(n, off0, len);
    while i <= last
      invariant first <= i && off == (if i == first then off0 else 0) && moved <= len && left == len - moved
      invariant Turn(n, i - first, off0, len, moved)
      invariant Moved(d, u, base, write, moved, dev.data[..], buf[..])
    {
      ghost var b := NextTurn(n, i - first, off0, len, moved);
      var bytes := Min(left, chunk * SECTOR_SIZE - off);
      assert bytes == b;
      MoveChunk(dev, i, chunk, off, write, buf, moved, bytes, d, u, base);
      off := 0;
      moved := moved + bytes;
      left := left - bytes;
      i := i + chunk;
    }
    LastTurn(n, i - first, off0, len, moved);
  }

  lemma MovedNothing(d: seq<byte>, u: seq<byte>, base: nat, write: bool)
    ensures Moved(d, u, base, write, 0, d, u)
  {
    assert Stretch(d, base, 0) + u[0..] == u;
  }

  lemma OverlayMore(d: seq<byte>, base: nat, u: seq<byte>, done: nat, bytes: nat, p: nat)
    requires done + bytes <= |u| && (done == 0 || base + done <= |d|) && p + bytes <= |d|
      && (bytes > 0 ==> p == base + done)
    ensures bytes > 0 ==> base + done + bytes <= |d|
    ensures Splice(Overlay(d, base, u[..done]), p, u[done..done + bytes]) == Overlay(d, base, u[..done + bytes])
  {
    hide Splice;
    SlicesJoin(u, 0, done, done + bytes);
    assert u[0..done] == u[..done] && u[0..done + bytes] == u[..done + bytes];
    OverlayPiece(d, base, u[..done], u[done..done + bytes], p);
  }

  lemma SlicesJoin(u: seq<byte>, a: nat, b: nat, c: nat)
    requires a <= b <= c <= |u|
    ensures u[a..b] + u[b..c] == u[a..c]
  {
  }

  lemma OverlayPiece(d: seq<byte>, base: nat, x: seq<byte>, y: seq<byte>, p: nat)
    requires (|x| == 0 || base + |x| <= |d|) && p + |y| <= |d| && (|y| > 0 ==> p == base + |x|)
    ensures |y| > 0 ==> base + |x| + |y| <= |d|
    ensures Splice(Overlay(d, base, x), p, y) == Overlay(d, base, x + y)
  {
    hide Splice;
    if |y| == 0 {
      assert x + y == x;
      SpliceNothing(Overlay(d, base, x), p, y);
    } else if |x| == 0 {
      assert x + y == y;
    } else {
      SpliceTwice(d, base, x, y);
    }
  }

  lemma StretchMore(d: seq<byte>, base: nat, u: seq<byte>, done: nat, bytes: nat, p: nat)
    requires done + bytes <= |u| && (done == 0 || base + done <= |d|) && p + bytes <= |d|
      && (bytes > 0 ==> p == base + done)
    ensures bytes > 0 ==> base + done + bytes <= |d|
    ensures Splice(Stretch(d, base, done) + u[done..], done, d[p..p + bytes]) ==
            Stretch(d, base, done + bytes) + u[done + bytes..]
  {
    hide Splice;
    var w, piece := Stretch(d, base, done) + u[done..], d[p..p + bytes];
    if bytes == 0 {
      SpliceNothing(w, done, piece);
    } else {
      StretchPiece(Stretch(d, base, done), u, piece);
      SlicesJoin(d, base, base + done, base + done + bytes);
      assert Stretch(d, base, done) + piece == Stretch(d, base, done + bytes);
    }
  }

  lemma StretchPiece(x: seq<byte>, u: seq<byte>, piece: seq<byte>)
    requires |x| + |piece| <= |u|
    ensures Splice(x + u[|x|..], |x|, piece) == x + piece + u[|x| + |piece|..]
  {
  }

  /** Reading back what was written returns it, and every byte outside is as before. */
  lemma WriteRead(d: seq<byte>, p: nat, b: seq<byte>)
    requires |b| == 0 || p + |b| <= |d|
    ensures Stretch(Overlay(d, p, b), p, |b|) == b
    ensures forall q :: 0 <= q < |d| && !(p <= q < p + |b|) ==> Overlay(d, p, b)[q] == d[q]
  {
  }
}
