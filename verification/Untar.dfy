/** `untar` (kernel/main.c:282-328): it extracts the files of an archive in the ustar Interchange Format (pax
    utility, IEEE Std 1003.1), in the order they were packed. */
module Untar {
  import opened Const
  import opened BlockDevice
  import opened Words
  import opened Directory

  datatype File = File(name: seq<byte>, content: seq<byte>)

  const CHUNK_BYTES := 8192
  const SIZE_FIELD := 124
  const DIGIT0 := 0x30

  // ---------------------------------------------------------------- archives

  predicate Octal(d: seq<byte>) { forall k :: 0 <= k < |d| ==> DIGIT0 <= ByteVal(d[k]) < DIGIT0 + 8 }

  /** The value of octal digits. */
  function OctalValue(d: seq<byte>): nat
    requires Octal(d)
  {
    if |d| == 0 then 0 else OctalValue(d[..|d| - 1]) * 8 + (ByteVal(d[|d| - 1]) - DIGIT0)
  }

  /** Whole sectors. */
  function Round(n: nat): (r: nat)
    ensures n <= r < n + SECTOR_SIZE && r % SECTOR_SIZE == 0
  {
    (n + SECTOR_SIZE - 1) / SECTOR_SIZE * SECTOR_SIZE
  }

  /** The C string at `p`. */
  predicate StringAt(a: seq<byte>, p: nat, s: seq<byte>) {
    p + |s| < |a| && 0 !in s && a[p..p + |s|] == s && a[p + |s|] == 0
  }

  /** A header at `p`: the name and the size in octal digits, each ended by a NUL inside its field. */
  predicate Header(a: seq<byte>, p: nat, f: File, digits: seq<byte>) {
    && p + SECTOR_SIZE <= |a| && 0 < |f.name| < 100 && StringAt(a, p, f.name)
    && |digits| < 12 && StringAt(a, p + SIZE_FIELD, digits) && Octal(digits) && OctalValue(digits) == |f.content|
  }

  /** From `p` on the archive holds these files, each padded to whole sectors, and then a sector that begins
      with a zero. */
  ghost predicate Archive(a: seq<byte>, p: nat, files: seq<File>)
    decreases |files|
  {
    if |files| == 0 then p + SECTOR_SIZE <= |a| && a[p] == 0
    else
      var f, q := files[0], p + SECTOR_SIZE;
      && (exists digits :: Header(a, p, f, digits))
      && q + Round(|f.content|) <= |a| && a[q..q + |f.content|] == f.content
      && Archive(a, q + Round(|f.content|), files[1..])
  }

  /** Where the archive ends: behind the sector that begins with a zero. */
  function End(p: nat, files: seq<File>): nat
    decreases |files|
  {
    if |files| == 0 then p + SECTOR_SIZE else End(p + SECTOR_SIZE + Round(|files[0].content|), files[1..])
  }

  // ---------------------------------------------------------------- what can be created

  /** `open` with O_CREAT succeeds on a name that is not empty, has no slash inside, and is not taken. */
  predicate Creatable(taken: set<seq<byte>>, name: seq<byte>) {
    Stripped(name).Some? && 0 < |Stripped(name).value| <= MAX_FILENAME_LEN && Pad(Stripped(name).value) !in taken
  }

  /** How many of the files, from the first on, can be created. */
  ghost function Good(taken: set<seq<byte>>, files: seq<File>): (n: nat)
    ensures n <= |files|
    decreases |files|
  {
    if |files| == 0 || !Creatable(taken, files[0].name) then 0
    else 1 + Good(taken + {Pad(Stripped(files[0].name).value)}, files[1..])
  }

  // ---------------------------------------------------------------- the code

  /** `read`: the archive is long enough for every read of a well-formed archive. */
  method Read(a: seq<byte>, pos: nat, buf: array<byte>, n: nat)
    requires pos + n <= |a| && n <= buf.Length
    modifies buf
    ensures buf[..n] == a[pos..pos + n]
  {
    forall k | 0 <= k < n {
      buf[k] := a[pos + k];
    }
  }

  /** The first zero byte from the start of a string is its end. */
  lemma StringStops(a: seq<byte>, p: nat, s: seq<byte>)
    requires StringAt(a, p, s)
    ensures forall k :: p <= k < p + |s| ==> a[k] != 0
  {
    forall k | p <= k < p + |s| ensures a[k] != 0 {
      assert a[k] == a[p..p + |s|][k - p] == s[k - p];
      assert s[k - p] in s;
    }
  }

  /** The size in the header (kernel/main.c:300-303). */
  method ParseSize(buf: array<byte>, ghost digits: seq<byte>) returns (fLen: nat)
    requires buf.Length == CHUNK_BYTES && StringAt(buf[..], SIZE_FIELD, digits) && Octal(digits) && |digits| < 12
    ensures fLen == OctalValue(digits)
  {
    var p := SIZE_FIELD;
    fLen := 0;
    assert digits[..0] == [];
    while buf[p] != 0
      invariant SIZE_FIELD <= p <= SIZE_FIELD + |digits| && fLen == OctalValue(digits[..p - SIZE_FIELD])
      decreases SIZE_FIELD + |digits| - p
    {
      ghost var k := p - SIZE_FIELD;
      assert buf[..][SIZE_FIELD..SIZE_FIELD + |digits|] == digits;
      assert k < |digits| && buf[p] == digits[k];
      assert digits[..k + 1][..k] == digits[..k];
      fLen := fLen * 8 + (ByteVal(buf[p]) - DIGIT0);
      p := p + 1;
    }
    assert buf[..][p] == 0;
    StringStops(buf[..], SIZE_FIELD, digits);
    assert p == SIZE_FIELD + |digits| && digits[..|digits|] == digits;
  }

  /** The name in the header, up to its NUL. */
  method ParseName(buf: array<byte>, ghost name: seq<byte>) returns (r: seq<byte>)
    requires buf.Length == CHUNK_BYTES && StringAt(buf[..], 0, name) && |name| < 100
    ensures r == name
  {
    var p := 0;
    while buf[p] != 0
      invariant 0 <= p <= |name|
      decreases |name| - p
    {
      assert p < |name|;
      p := p + 1;
    }
    assert buf[..][p] == 0;
    StringStops(buf[..], 0, name);
    assert p == |name| && buf[..p] == buf[..][0..|name|];
    r := buf[..p];
  }

  /** The chunks of one file (kernel/main.c:313-321): the position ends at the next header. */
  method CopyFile(a: seq<byte>, pos0: nat, fLen: nat, buf: array<byte>) returns (pos: nat, out: seq<byte>)
    requires buf.Length == CHUNK_BYTES && pos0 + Round(fLen) <= |a|
    modifies buf
    ensures pos == pos0 + Round(fLen) && out == a[pos0..pos0 + fLen]
  {
    pos, out := pos0, [];
    var bytesLeft := fLen;
    while bytesLeft > 0
      invariant 0 <= bytesLeft <= fLen && out == a[pos0..pos0 + (fLen - bytesLeft)]
      invariant bytesLeft > 0 ==> pos == pos0 + (fLen - bytesLeft) && (fLen - bytesLeft) % CHUNK_BYTES == 0
      invariant bytesLeft == 0 ==> pos == pos0 + Round(fLen)
    {
      var iobytes := Min(CHUNK_BYTES, bytesLeft);
      var n := ((iobytes - 1) / SECTOR_SIZE + 1) * SECTOR_SIZE;
      ghost var done := fLen - bytesLeft;
      ChunkRounds(fLen, done, iobytes);
      Read(a, pos, buf, n);
      assert buf[..iobytes] == buf[..n][..iobytes] == a[pos..pos + iobytes];
      out := out + buf[..iobytes];
      pos := pos + n;
      bytesLeft := bytesLeft - iobytes;
    }
  }

  /** Full chunks are whole sectors, and the last one is rounded up. */
  lemma ChunkRounds(len: nat, done: nat, iobytes: nat)
    requires done < len && done % CHUNK_BYTES == 0 && iobytes == Min(CHUNK_BYTES, len - done)
    ensures var n := ((iobytes - 1) / SECTOR_SIZE + 1) * SECTOR_SIZE;
      && iobytes <= n <= CHUNK_BYTES && done + n <= Round(len)
      && (if done + iobytes == len then done + n == Round(len)
           else n == iobytes == CHUNK_BYTES && (done + n) % CHUNK_BYTES == 0)
  {
    if iobytes < CHUNK_BYTES || done + iobytes == len {
      assert len == done + iobytes;
      var k := done / CHUNK_BYTES;
      assert done == k * 16 * SECTOR_SIZE;
      assert (len + SECTOR_SIZE - 1) / SECTOR_SIZE == k * 16 + (iobytes + SECTOR_SIZE - 1) / SECTOR_SIZE;
    }
  }

  /** `untar` on an archive at whose names `taken` exist: it extracts the files that were packed, names and
      contents, up to the first that cannot be created, and when there is none it reads to the end. */
  method Extract(a: seq<byte>, ghost files: seq<File>, taken0: set<seq<byte>>) returns (out: seq<File>,
                 aborted: bool, pos: nat)
    requires Archive(a, 0, files)
    ensures out == files[..Good(taken0, files)] && (aborted <==> Good(taken0, files) < |files|)
    ensures !aborted ==> pos == End(0, files)
  {
    hide Archive, Good, End, Header, StringAt, Round, Pad, Stripped;
    var buf := new byte[CHUNK_BYTES];
    var taken := taken0;
    pos, out := 0, [];
    ghost var rest := files;
    while true
      invariant Archive(a, pos, rest) && |out| + |rest| == |files| && out == files[..|out|] && rest == files[|out|..]
      invariant Good(taken0, files) == |out| + Good(taken, rest) && End(pos, rest) == End(0, files)
      decreases |rest|
    {
      ReadsHeader(a, pos, rest);
      Read(a, pos, buf, SECTOR_SIZE);
      assert buf[0] == buf[..SECTOR_SIZE][0] == a[pos];
      ghost var at := pos;
      pos := pos + SECTOR_SIZE;
      if buf[0] == 0 {
        NothingMore(taken, at, rest);
        return out, false, pos;
      }
      NextFile(a, at, rest);
      GoodNext(taken, rest);
      ghost var digits := HeaderDigits(a, at, rest);
      InHeader(a, at, buf[..], rest[0].name, 0);
      InHeader(a, at, buf[..], digits, SIZE_FIELD);
      var fLen := ParseSize(buf, digits);
      var name := ParseName(buf, rest[0].name);
      if !Creatable(taken, name) {
        return out, true, pos;
      }
      var content;
      pos, content := CopyFile(a, pos, fLen, buf);
      taken := taken + {Pad(Stripped(name).value)};
      assert files[..|out| + 1] == files[..|out|] + [rest[0]];
      out := out + [File(name, content)];
      rest := rest[1..];
    }
  }

  lemma ReadsHeader(a: seq<byte>, p: nat, files: seq<File>)
    requires Archive(a, p, files)
    ensures p + SECTOR_SIZE <= |a| && (a[p] == 0 <==> |files| == 0)
  {
    if |files| > 0 {
      var digits :| Header(a, p, files[0], digits);
      assert a[p] == a[p..p + |files[0].name|][0] == files[0].name[0];
      assert files[0].name[0] in files[0].name;
    }
  }

  lemma NothingMore(taken: set<seq<byte>>, p: nat, files: seq<File>)
    requires |files| == 0
    ensures Good(taken, files) == 0 && End(p, files) == p + SECTOR_SIZE
  {
  }

  lemma HeaderDigits(a: seq<byte>, p: nat, files: seq<File>) returns (digits: seq<byte>)
    requires Archive(a, p, files) && |files| > 0
    ensures Header(a, p, files[0], digits) && p + SECTOR_SIZE <= |a| && 0 < |files[0].name| < 100
      && StringAt(a, p, files[0].name)
    ensures |digits| < 12 && StringAt(a, p + SIZE_FIELD, digits) && Octal(digits)
      && OctalValue(digits) == |files[0].content|
  {
    digits :| Header(a, p, files[0], digits);
  }

  /** A string of the header, in the buffer. */
  lemma InHeader(a: seq<byte>, p: nat, buf: seq<byte>, s: seq<byte>, off: nat)
    requires p + SECTOR_SIZE <= |a| && |buf| >= SECTOR_SIZE && buf[..SECTOR_SIZE] == a[p..p + SECTOR_SIZE]
    requires off + |s| < SECTOR_SIZE && StringAt(a, p + off, s)
    ensures StringAt(buf, off, s)
  {
    var h, x, y := a[p..p + SECTOR_SIZE], buf[off..off + |s|], a[p + off..p + off + |s|];
    forall k | 0 <= k < |s| ensures x[k] == y[k] {
      assert buf[off + k] == buf[..SECTOR_SIZE][off + k] == h[off + k] == a[p + off + k];
    }
    assert buf[off + |s|] == buf[..SECTOR_SIZE][off + |s|] == h[off + |s|];
  }

  /** The first file of the rest, and what follows it. */
  lemma NextFile(a: seq<byte>, p: nat, files: seq<File>)
    requires Archive(a, p, files) && |files| > 0
    ensures var q, n := p + SECTOR_SIZE, |files[0].content|;
      q + Round(n) <= |a| && a[q..q + n] == files[0].content && Archive(a, q + Round(n), files[1..])
    ensures End(p, files) == End(p + SECTOR_SIZE + Round(|files[0].content|), files[1..])
  {
  }

  lemma GoodNext(taken: set<seq<byte>>, files: seq<File>)
    requires |files| > 0
    ensures Creatable(taken, files[0].name) ==>
      Good(taken, files) == 1 + Good(taken + {Pad(Stripped(files[0].name).value)}, files[1..])
    ensures !Creatable(taken, files[0].name) ==> Good(taken, files) == 0
  {
  }

  lemma SameString(a: seq<byte>, p: nat, s: seq<byte>, t: seq<byte>)
    requires StringAt(a, p, s) && StringAt(a, p, t)
    ensures s == t
  {
    StringStops(a, p, s);
    StringStops(a, p, t);
    assert |s| == |t|;
  }

  /** An archive holds one list of files, so what `untar` extracts is what was packed. */
  lemma {:induction false} OneArchive(a: seq<byte>, p: nat, files: seq<File>, others: seq<File>)
    requires Archive(a, p, files) && Archive(a, p, others)
    ensures files == others
    decreases |files|
  {
    hide Archive, Header, StringAt, Round, OctalValue, End;
    ReadsHeader(a, p, files);
    ReadsHeader(a, p, others);
    if |files| > 0 {
      var d := HeaderDigits(a, p, files);
      var e := HeaderDigits(a, p, others);
      SameString(a, p, files[0].name, others[0].name);
      SameString(a, p + SIZE_FIELD, d, e);
      NextFile(a, p, files);
      NextFile(a, p, others);
      assert files[0] == others[0];
      OneArchive(a, p + SECTOR_SIZE + Round(|files[0].content|), files[1..], others[1..]);
      assert files == [files[0]] + files[1..] && others == [others[0]] + others[1..];
    }
  }
}
