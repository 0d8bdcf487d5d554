/** The root directory: 16-byte slots (i-node number, 12-byte name) in the sectors of the root
    extent, with the scanning loops of `search_file` and `strip_path` (fs/misc.c), `new_dir_entry`
    (fs/open.c) and the last part of `do_unlink` (fs/link.c). */
module Directory {
  import opened Const
  import opened BlockDevice
  import opened SectorMap
  import opened Words
  import opened Inodes

  datatype Slot = Slot(nr: word, name: seq<byte>)

  const SLOTS_PER_SECT := 32
  /** The slots of the root extent, which `mkfs` makes NR_DEFAULT_FILE_SECTS long. */
  const DIR_SLOTS := 16384
  const SLASH: byte := 0x2F

  // ---------------------------------------------------------------- slots on disk

  function SlotAt(d: seq<byte>, base: nat, m: nat): Slot
    requires base + (m + 1) * DIR_ENTRY_SIZE <= |d|
  {
    Slot(WordAt(d, base + m * DIR_ENTRY_SIZE), d[base + m * DIR_ENTRY_SIZE + 4..base + (m + 1) * DIR_ENTRY_SIZE])
  }

  /** The slots of the directory whose extent starts at sector `blk0`. */
  function Slots(d: seq<byte>, blk0: nat): (s: seq<Slot>)
    requires (blk0 + NR_DEFAULT_FILE_SECTS) * SECTOR_SIZE <= |d|
    ensures |s| == DIR_SLOTS && forall m :: 0 <= m < DIR_SLOTS ==> s[m] == SlotAt(d, blk0 * SECTOR_SIZE, m)
  {
    seq(DIR_SLOTS, m requires 0 <= m < DIR_SLOTS => SlotAt(d, blk0 * SECTOR_SIZE, m))
  }

  /** The first slot from `i` on with this name. */
  function FindNameFrom(s: seq<Slot>, key: seq<byte>, i: nat): (m: nat)
    requires i <= |s|
    ensures i <= m <= |s| && (m < |s| ==> s[m].name == key)
    ensures forall k :: i <= k < m ==> s[k].name != key
    decreases |s| - i
  {
    if i == |s| || s[i].name == key then i else FindNameFrom(s, key, i + 1)
  }

  function FindName(s: seq<Slot>, key: seq<byte>): (m: nat)
    ensures m <= |s| && (m < |s| ==> s[m].name == key)
    ensures forall k :: 0 <= k < m ==> s[k].name != key
  {
    FindNameFrom(s, key, 0)
  }

  /** The first slot from `i` on with this number. */
  function FindNrFrom(s: seq<Slot>, nr: word, i: nat): (m: nat)
    requires i <= |s|
    ensures i <= m <= |s| && (m < |s| ==> s[m].nr == nr)
    ensures forall k :: i <= k < m ==> s[k].nr != nr
    decreases |s| - i
  {
    if i == |s| || s[i].nr == nr then i else FindNrFrom(s, nr, i + 1)
  }

  function FindNr(s: seq<Slot>, nr: word): (m: nat)
    ensures m <= |s| && (m < |s| ==> s[m].nr == nr)
    ensures forall k :: 0 <= k < m ==> s[k].nr != nr
  {
    FindNrFrom(s, nr, 0)
  }

  function Zeros(n: nat): (z: seq<byte>)
    ensures |z| == n && forall k :: 0 <= k < n ==> z[k] == 0
  {
    seq(n, k => 0)
  }

  /** A slot as `memset` leaves it. */
  const EMPTY := Slot(0, Zeros(MAX_FILENAME_LEN))

  /** A name as `search_file` compares it: 12 bytes, padded with zeros. */
  function Pad(name: seq<byte>): (key: seq<byte>)
    requires |name| <= MAX_FILENAME_LEN
    ensures |key| == MAX_FILENAME_LEN
  {
    name + Zeros(MAX_FILENAME_LEN - |name|)
  }

  /** Slot `j` of the buffered sector `i`. */
  lemma SlotInBuffer(d: seq<byte>, buf: seq<byte>, blk0: nat, i: nat, j: nat)
    requires j < SLOTS_PER_SECT && i < NR_DEFAULT_FILE_SECTS && |buf| >= SECTOR_SIZE
    requires (blk0 + NR_DEFAULT_FILE_SECTS) * SECTOR_SIZE <= |d|
    requires buf[..SECTOR_SIZE] == Sector(d, 0, blk0 + i)
    ensures SlotAt(buf, 0, j) == Slots(d, blk0)[i * SLOTS_PER_SECT + j]
  {
    hide WordAt, Sector;
    var p, q := j * DIR_ENTRY_SIZE, (blk0 + i) * SECTOR_SIZE + j * DIR_ENTRY_SIZE;
    InSector(d, buf, blk0 + i, p, 4);
    InSector(d, buf, blk0 + i, p + 4, MAX_FILENAME_LEN);
    WordSame(buf, p, d, q);
  }

  // ---------------------------------------------------------------- paths

  /** The path after an optional leading slash. */
  function Relative(path: seq<byte>): seq<byte> {
    if path != [] && path[0] == SLASH then path[1..] else path
  }

  /** A C string: what stands before the first NUL. */
  function Text(s: seq<byte>): (t: seq<byte>)
    ensures t <= s && 0 !in t && (|t| < |s| ==> s[|t|] == 0)
  {
    if s == [] || s[0] == 0 then [] else [s[0]] + Text(s[1..])
  }

  /** At most twelve characters of the text, none of which is a slash. */
  function Stripped(path: seq<byte>): (r: Option<seq<byte>>)
    ensures r.Some? ==> |r.value| <= MAX_FILENAME_LEN && 0 !in r.value && SLASH !in r.value
  {
    var t := Text(Relative(path));
    var u := t[..Min(|t|, MAX_FILENAME_LEN)];
    if SLASH in u then None else Some(u)
  }

  /** A short text without a slash is its own name. */
  lemma PlainPath(name: seq<byte>)
    requires |name| <= MAX_FILENAME_LEN && 0 !in name && SLASH !in name
    ensures Stripped(name) == Some(name)
  {
    hide Text;
    assert Relative(name) == name && Text(name) == name && name[..Min(|name|, MAX_FILENAME_LEN)] == name;
  }

  predicate Plain(name: seq<byte>) { 0 !in name && SLASH !in name }

  lemma {:induction false} TextAfter(name: seq<byte>, rest: seq<byte>)
    requires 0 !in name
    ensures Text(name + rest) == name + Text(rest)
  {
    if name == [] {
      assert name + rest == rest;
    } else {
      assert (name + rest)[1..] == name[1..] + rest;
      TextAfter(name[1..], rest);
      assert name[0] in name;
    }
  }

  /** One leading slash is dropped. */
  lemma OneSlash(name: seq<byte>)
    requires |name| <= 12 && Plain(name)
    ensures Stripped([0x2F] + name) == Some(name)
  {
    hide Text;
    var path := [0x2F] + name;
    assert path[0] == SLASH && path[1..] == name;
    assert Text(name) == name && name[..Min(|name|, MAX_FILENAME_LEN)] == name;
  }

  /** A name longer than twelve characters is cut. */
  lemma LongPath(name: seq<byte>, rest: seq<byte>)
    requires |name| == 12 && Plain(name)
    ensures Stripped(name + rest) == Some(name)
  {
    hide Text;
    assert (name + rest)[0] == name[0] && name[0] in name;
    TextAfter(name, rest);
    assert (name + Text(rest))[..12] == name;
  }

  /** A slash among the first twelve characters makes a path bad. */
  lemma InnerSlash(name: seq<byte>, rest: seq<byte>)
    requires 0 < |name| < 12 && Plain(name)
    ensures Stripped(name + [0x2F] + rest) == None
  {
    hide Text;
    var tail := [SLASH] + rest;
    assert name + [0x2F] + rest == name + tail && (name + tail)[0] == name[0] && name[0] in name;
    TextAfter(name, tail);
    TextAfter([SLASH], rest);
    var t := name + ([SLASH] + Text(rest));
    assert t[..Min(|t|, MAX_FILENAME_LEN)][|name|] == SLASH;
  }

  /** What stands behind a NUL does not matter. */
  lemma NulEnds(name: seq<byte>, rest: seq<byte>)
    requires 0 < |name| <= 12 && Plain(name)
    ensures Stripped(name + [0] + rest) == Some(name)
  {
    var tail := [0] + rest;
    assert name + [0] + rest == name + tail && (name + tail)[0] == name[0] && name[0] in name;
    TextAfter(name, tail);
    assert name + [] == name && name[..Min(|name|, MAX_FILENAME_LEN)] == name;
  }

  /** `strip_path` (fs/misc.c:102-123); the terminating NUL need not be written. */
  method StripPath(path: seq<byte>) returns (r: Option<seq<byte>>)
    ensures r == Stripped(path)
    ensures r.Some? ==> |r.value| <= MAX_FILENAME_LEN && 0 !in r.value && SLASH !in r.value
  {
    hide Text;
    ghost var rel := Relative(path);
    ghost var u := Text(rel)[..Min(|Text(rel)|, MAX_FILENAME_LEN)];
    var s := 0;
    var t: seq<byte> := [];
    if path != [] && path[0] == SLASH {
      s := 1;
    }
    while s < |path| && path[s] != 0
      invariant |t| < MAX_FILENAME_LEN && |t| <= |Text(rel)| && s == |path| - |rel| + |t|
      invariant t == u[..|t|] && SLASH !in t
    {
      assert path[s] == rel[|t|] == u[|t|];
      if path[s] == SLASH {
        return None;
      }
      t := t + [path[s]];
      s := s + 1;
      if |t| >= MAX_FILENAME_LEN {
        break;
      }
    }
    assert t == u;
    r := Some(t);
  }

  // ---------------------------------------------------------------- search

  /** The number of sectors `search_file` reads (fs/misc.c:78). */
  function SearchBlocks(entries: nat): (n: nat)
    ensures (n - 1) * SLOTS_PER_SECT < entries <= n * SLOTS_PER_SECT || entries == n == 0
  {
    (entries * DIR_ENTRY_SIZE + SECTOR_SIZE - 1) / SECTOR_SIZE
  }

  /** The number of slots it compares: the entries and, unless they end at a sector boundary, the
      slot after them. */
  function Probed(entries: nat): (n: nat)
    ensures entries <= n <= entries + 1
  {
    Min(entries + 1, SearchBlocks(entries) * SLOTS_PER_SECT)
  }

  /** Where the first slot with this name is, its number; 0 when there is none. */
  function Lookup(s: seq<Slot>, key: seq<byte>): word {
    var m := FindName(s, key);
    if m < |s| then s[m].nr else 0
  }

  /** One sector of the search (fs/misc.c:84-92). */
  method SearchBlock(dev: Disk, blk0: nat, i: nat, m0: nat, entries: nat, key: seq<byte>)
      returns (hit: bool, nr: word, m: nat)
    requires dev.Valid() && dev.OnDisk(blk0, NR_DEFAULT_FILE_SECTS) && i < NR_DEFAULT_FILE_SECTS
    requires m0 == i * SLOTS_PER_SECT <= entries
    requires dev.fsbuf[..SECTOR_SIZE] == Sector(dev.data[..], 0, blk0 + i)
    requires FindName(Slots(dev.data[..], blk0), key) >= m0
    ensures var s, n := Slots(dev.data[..], blk0), Min(entries + 1, (i + 1) * SLOTS_PER_SECT);
      if hit then m == FindName(s, key) < n && nr == s[m].nr else m == n <= FindName(s, key)
  {
    hide FindName, FindNr, Sector, SlotAt, Slots;
    ghost var d := dev.data[..];
    ghost var s := Slots(d, blk0);
    m, nr := m0, 0;
    var j := 0;
    while j < SLOTS_PER_SECT
      invariant 0 <= j <= SLOTS_PER_SECT && m == m0 + j <= entries
      invariant FindName(s, key) >= m
    {
      SlotInBuffer(d, dev.fsbuf[..], blk0, i, j);
      var pde := SlotAt(dev.fsbuf[..], 0, j);
      assert pde == s[m];
      if pde.name == key {
        return true, pde.nr, m;
      }
      m := m + 1;
      if m > entries {
        return false, 0, m;
      }
      j := j + 1;
    }
    hit := false;
  }

  /** `search_file` after the path has been stripped (fs/misc.c:77-97): the number in the first slot
      among those probed that holds the name, whatever that number is, and 0 when no slot holds it. */
  method SearchFile(dev: Disk, blk0: nat, entries: nat, key: seq<byte>) returns (nr: word)
    requires dev.Valid() && dev.OnDisk(blk0, NR_DEFAULT_FILE_SECTS) && entries < DIR_SLOTS
    modifies dev.fsbuf
    ensures nr == Lookup(Slots(dev.data[..], blk0)[..Probed(entries)], key)
  {
    hide FindName, FindNr, Sector, SlotAt, Slots;
    ghost var d := dev.data[..];
    ghost var s := Slots(d, blk0);
    var m, i, blks := 0, 0, SearchBlocks(entries);
    while i < blks
      invariant 0 <= i <= blks && m == i * SLOTS_PER_SECT <= entries
      invariant dev.data[..] == d
      invariant FindName(s, key) >= m
    {
      ReadSect(dev, blk0 + i, 0, blk0 + i);
      var hit;
      hit, nr, m := SearchBlock(dev, blk0, i, m, entries, key);
      if hit {
        return;
      }
      if m > entries {
        break;
      }
      i := i + 1;
    }
    nr := 0;
  }

  // ---------------------------------------------------------------- scanning for a number

  /** The number of slots in use. */
  function Used(s: seq<Slot>): (n: nat)
    ensures n <= |s|
  {
    if s == [] then 0 else Used(s[..|s| - 1]) + if s[|s| - 1].nr != 0 then 1 else 0
  }

  lemma UsedNext(s: seq<Slot>, m: nat)
    requires m < |s|
    ensures Used(s[..m + 1]) == Used(s[..m]) + if s[m].nr != 0 then 1 else 0
  {
    assert s[..m + 1][..m] == s[..m];
  }

  /** One sector of a scan of the entries for a slot numbered `nr` (fs/open.c:402-410,
      fs/link.c:131-145), counting the used slots it passes. It ends at the slot (`hit`), after the
      last entry (`over`) or at the end of the sector. */
  method ScanBlock(dev: Disk, blk0: nat, i: nat, m0: nat, entries: nat, nr: word, used0: nat)
      returns (hit: bool, over: bool, m: nat, used: nat)
    requires dev.Valid() && dev.OnDisk(blk0, NR_DEFAULT_FILE_SECTS) && i < NR_DEFAULT_FILE_SECTS
    requires m0 == i * SLOTS_PER_SECT <= entries < DIR_SLOTS
    requires dev.fsbuf[..SECTOR_SIZE] == Sector(dev.data[..], 0, blk0 + i)
    requires FindNr(Slots(dev.data[..], blk0), nr) >= m0 && used0 == Used(Slots(dev.data[..], blk0)[..m0])
    ensures var s := Slots(dev.data[..], blk0);
      && m <= entries && used == Used(s[..m]) && m == Min(FindNr(s, nr), Min(entries, (i + 1) * SLOTS_PER_SECT))
      && (hit <==> m < Min(entries, (i + 1) * SLOTS_PER_SECT)) && (over <==> !hit && m < (i + 1) * SLOTS_PER_SECT)
  {
    hide FindName, FindNr, Sector, SlotAt, Slots, Used;
    ghost var d := dev.data[..];
    ghost var s := Slots(d, blk0);
    m, used := m0, used0;
    var j := 0;
    while j < SLOTS_PER_SECT
      invariant 0 <= j <= SLOTS_PER_SECT && m == m0 + j <= entries
      invariant FindNr(s, nr) >= m && used == Used(s[..m])
    {
      if m + 1 > entries {
        return false, true, m, used;
      }
      SlotInBuffer(d, dev.fsbuf[..], blk0, i, j);
      var pde := SlotAt(dev.fsbuf[..], 0, j);
      assert pde == s[m];
      if pde.nr == nr {
        return true, false, m, used;
      }
      UsedNext(s, m);
      if pde.nr != 0 {
        used := used + 1;
      }
      m, j := m + 1, j + 1;
    }
    hit, over := false, false;
  }

  /** Both scans, sector after sector: the first of the entries numbered `nr`, or `entries`. The
      buffer then holds its sector, the `i`-th. */
  method Scan(dev: Disk, blk0: nat, entries: nat, nr: word) returns (i: nat, at: nat, used: nat)
    requires dev.Valid() && dev.OnDisk(blk0, NR_DEFAULT_FILE_SECTS) && entries < DIR_SLOTS
    modifies dev.fsbuf
    ensures at == Min(FindNr(Slots(dev.data[..], blk0), nr), entries) && used == Used(Slots(dev.data[..], blk0)[..at])
    ensures i < NR_DEFAULT_FILE_SECTS && i * SLOTS_PER_SECT <= at < (i + 1) * SLOTS_PER_SECT
    ensures dev.fsbuf[..SECTOR_SIZE] == Sector(dev.data[..], 0, blk0 + i)
  {
    hide FindName, FindNr, Sector, SlotAt, Slots, Used;
    ghost var d := dev.data[..];
    ghost var s := Slots(d, blk0);
    UsedNone(s[..0]);
    at, used, i := 0, 0, 0;
    var blks := DirBlocks(entries);
    while i < blks
      invariant i < blks && at == i * SLOTS_PER_SECT <= entries
      invariant dev.data[..] == d
      invariant FindNr(s, nr) >= at && used == Used(s[..at])
    {
      ReadSect(dev, blk0 + i, 0, blk0 + i);
      var hit, over;
      hit, over, at, used := ScanBlock(dev, blk0, i, at, entries, nr, used);
      if hit || over {
        return;
      }
      i := i + 1;
    }
    assert false;
  }

  /** The number of sectors that `new_dir_entry` and `do_unlink` scan (fs/open.c:384, fs/link.c:114). */
  function DirBlocks(entries: nat): (n: nat)
    ensures (n - 1) * SLOTS_PER_SECT <= entries < n * SLOTS_PER_SECT
  {
    (entries * DIR_ENTRY_SIZE + SECTOR_SIZE) / SECTOR_SIZE
  }

  lemma UsedNone(s: seq<Slot>)
    requires s == []
    ensures Used(s) == 0
  {
  }

  // ---------------------------------------------------------------- a new entry

  /** The name field of a slot after `strcpy`: the NUL ends the name, what follows it stays. */
  function NameOver(was: seq<byte>, name: seq<byte>): (r: seq<byte>)
    requires |was| == MAX_FILENAME_LEN && |name| <= MAX_FILENAME_LEN
    ensures |r| == MAX_FILENAME_LEN
  {
    if |name| == MAX_FILENAME_LEN then name else name + [0] + was[|name| + 1..]
  }

  /** The NUL of a 12-character name goes into the next slot of the sector. */
  predicate Spills(at: nat, name: seq<byte>) {
    |name| == MAX_FILENAME_LEN && at % SLOTS_PER_SECT != SLOTS_PER_SECT - 1
  }

  /** The directory after slot `at` has received a number and a name. */
  function Enter(s: seq<Slot>, at: nat, nr: word, name: seq<byte>): (r: seq<Slot>)
    requires at < |s| && |s[at].name| == MAX_FILENAME_LEN && |name| <= MAX_FILENAME_LEN
    ensures |r| == |s|
  {
    var t := s[at := Slot(nr, NameOver(s[at].name, name))];
    if Spills(at, name) && at + 1 < |s| then t[at + 1 := s[at + 1].(nr := s[at + 1].nr / 0x100 * 0x100)] else t
  }

  /** `strcpy` into the buffer. */
  method PutString(dev: Disk, p: nat, name: seq<byte>)
    requires dev.Valid() && p + |name| + 1 <= FSBUF_SIZE
    modifies dev.fsbuf
    ensures dev.fsbuf[..] == Splice(old(dev.fsbuf[..]), p, name + [0])
  {
    hide Splice;
    ghost var buf := dev.fsbuf[..];
    SpliceNothing(buf, p, name[..0]);
    var k := 0;
    while k < |name|
      invariant 0 <= k <= |name| && dev.fsbuf[..] == Splice(buf, p, name[..k])
    {
      PutByte(dev, p + k, name[k]);
      SpliceNext(buf, p, name[..k], name[k]);
      assert name[..k] + [name[k]] == name[..k + 1];
      k := k + 1;
    }
    PutByte(dev, p + k, 0);
    assert name[..k] == name;
    SpliceNext(buf, p, name, 0);
  }

  method PutByte(dev: Disk, p: nat, b: byte)
    requires dev.Valid() && p < FSBUF_SIZE
    modifies dev.fsbuf
    ensures dev.fsbuf[..] == old(dev.fsbuf[..])[p := b]
  {
    dev.fsbuf[p] := b;
  }

  lemma SpliceNext(buf: seq<byte>, p: nat, x: seq<byte>, b: byte)
    requires p + |x| < |buf|
    ensures Splice(buf, p, x)[p + |x| := b] == Splice(buf, p, x + [b])
  {
  }

  /** What `new_dir_entry` writes to the disk for slot `at`. */
  function EntryBytes(at: nat, nr: word, name: seq<byte>): (b: seq<byte>)
    requires |name| <= MAX_FILENAME_LEN
    ensures |b| <= if Spills(at, name) then DIR_ENTRY_SIZE + 1 else DIR_ENTRY_SIZE
  {
    if |name| == MAX_FILENAME_LEN && !Spills(at, name) then WordBytes(nr) + name else WordBytes(nr) + name + [0]
  }

  /** Slot `at` of the directory, in bytes from the start of the disk. */
  function SlotOff(blk0: nat, at: nat): nat { blk0 * SECTOR_SIZE + at * DIR_ENTRY_SIZE }

  /** A change of the buffer, cut off at the end of the sector. */
  function Cut(j: nat, b: seq<byte>): (c: seq<byte>)
    requires j < SLOTS_PER_SECT
    ensures |c| == Min(|b|, SECTOR_SIZE - j * DIR_ENTRY_SIZE)
  {
    b[..Min(|b|, SECTOR_SIZE - j * DIR_ENTRY_SIZE)]
  }

  lemma SpliceCut(buf: seq<byte>, j: nat, b: seq<byte>)
    requires j < SLOTS_PER_SECT && |buf| > SECTOR_SIZE && |b| <= DIR_ENTRY_SIZE + 1
    ensures Splice(buf, j * DIR_ENTRY_SIZE, b)[..SECTOR_SIZE] ==
            Splice(buf[..SECTOR_SIZE], j * DIR_ENTRY_SIZE, Cut(j, b))
  {
  }

  /** Changing slot `j` of the buffered sector `i` and writing the sector back. */
  lemma RewriteSlot(d: seq<byte>, buf: seq<byte>, blk0: nat, i: nat, j: nat, b: seq<byte>)
    requires j < SLOTS_PER_SECT && i < NR_DEFAULT_FILE_SECTS && |buf| > SECTOR_SIZE && |b| <= DIR_ENTRY_SIZE + 1
    requires (blk0 + NR_DEFAULT_FILE_SECTS) * SECTOR_SIZE <= |d|
    requires buf[..SECTOR_SIZE] == Sector(d, 0, blk0 + i)
    ensures SlotOff(blk0, i * SLOTS_PER_SECT + j) + |Cut(j, b)| <= |d|
    ensures Splice(d, (blk0 + i) * SECTOR_SIZE, Splice(buf, j * DIR_ENTRY_SIZE, b)[..SECTOR_SIZE]) ==
      Splice(d, SlotOff(blk0, i * SLOTS_PER_SECT + j), Cut(j, b))
  {
    hide Splice, Cut;
    SpliceCut(buf, j, b);
    RewriteSector(d, Sector(d, 0, blk0 + i), (blk0 + i) * SECTOR_SIZE, j * DIR_ENTRY_SIZE, Cut(j, b));
  }

  /** What reaches the disk of a name and its NUL. */
  lemma EntryCut(i: nat, j: nat, nr: word, name: seq<byte>)
    requires j < SLOTS_PER_SECT && |name| <= MAX_FILENAME_LEN
    ensures Cut(j, WordBytes(nr) + (name + [0])) == EntryBytes(i * SLOTS_PER_SECT + j, nr, name)
  {
    hide WordBytes;
    LastOfSector(i, j);
    if j == SLOTS_PER_SECT - 1 {
      assert Cut(j, WordBytes(nr) + (name + [0])) == EntryBytes(i * SLOTS_PER_SECT + j, nr, name);
    }
  }

  /** The number and the name of a slot of the buffer (fs/open.c:418-419). */
  method PutEntry(dev: Disk, j: nat, nr: word, name: seq<byte>)
    requires dev.Valid() && j < SLOTS_PER_SECT && |name| <= MAX_FILENAME_LEN
    modifies dev.fsbuf
    ensures dev.fsbuf[..] == Splice(old(dev.fsbuf[..]), j * DIR_ENTRY_SIZE, WordBytes(nr) + (name + [0]))
  {
    hide Splice, WordBytes;
    ghost var buf := dev.fsbuf[..];
    PutWord(dev, j * DIR_ENTRY_SIZE, nr);
    PutString(dev, j * DIR_ENTRY_SIZE + 4, name);
    SpliceTwice(buf, j * DIR_ENTRY_SIZE, WordBytes(nr), name + [0]);
  }

  /** `new_dir_entry` (fs/open.c:380-426) up to its `sync_inode`: the entry goes to the first free
      slot, or after the last entry, and then the directory grows. */
  method NewDirEntry(dev: Disk, blk0: nat, entries: nat, nr: word, name: seq<byte>) returns (grown: bool)
    requires dev.Valid() && dev.OnDisk(blk0, NR_DEFAULT_FILE_SECTS) && entries < DIR_SLOTS && |name| <= MAX_FILENAME_LEN
    modifies dev.data, dev.fsbuf
    ensures var at := Min(FindNr(Slots(old(dev.data[..]), blk0), 0), entries);
      && (grown <==> at == entries)
      && SlotOff(blk0, at) + |EntryBytes(at, nr, name)| <= dev.data.Length
      && dev.data[..] == Splice(old(dev.data[..]), SlotOff(blk0, at), EntryBytes(at, nr, name))
  {
    hide FindNr, Sector, Slots, Splice, WordBytes, Cut, EntryBytes, Spills, Min;
    ghost var d := dev.data[..];
    var i, at, used := Scan(dev, blk0, entries, 0);
    grown := at == entries;
    ghost var buf := dev.fsbuf[..];
    var j := at - i * SLOTS_PER_SECT;
    PutEntry(dev, j, nr, name);
    ghost var b := WordBytes(nr) + (name + [0]);
    RewriteSlot(d, buf, blk0, i, j, b);
    EntryCut(i, j, nr, name);
    dev.Write(blk0 + i, 1);
  }

  lemma LastOfSector(i: nat, j: nat)
    requires j < SLOTS_PER_SECT
    ensures (i * SLOTS_PER_SECT + j) % SLOTS_PER_SECT == j
  {
  }

  /** Removal of the slot numbered `nr` (fs/link.c:113-155), and the new number of entries. When the
      slot was the last, that is the number of used slots before it. */
  method RemoveEntry(dev: Disk, blk0: nat, entries: nat, nr: word) returns (ok: bool, last: bool, entries': nat)
    requires dev.Valid() && dev.OnDisk(blk0, NR_DEFAULT_FILE_SECTS) && entries < DIR_SLOTS
    modifies dev.data, dev.fsbuf
    ensures var s := Slots(old(dev.data[..]), blk0);
      var at := FindNr(s, nr);
      && (ok <==> at < entries)
      && (ok ==> SlotOff(blk0, at) + DIR_ENTRY_SIZE <= dev.data.Length)
      && (ok ==> dev.data[..] == Splice(old(dev.data[..]), SlotOff(blk0, at), Zeros(DIR_ENTRY_SIZE)))
      && (ok ==> (last <==> at + 1 == entries))
      && (ok ==> entries' == if last then Used(s[..at]) else entries)
  {
    hide FindNr, Sector, Slots, Splice, Used, Zeros;
    ghost var d := dev.data[..];
    var i, at, used := Scan(dev, blk0, entries, nr);
    ok, last, entries' := at < entries, at + 1 == entries, entries;
    if ok {
      ghost var buf := dev.fsbuf[..];
      var j := at - i * SLOTS_PER_SECT;
      PutZeros(dev, j * DIR_ENTRY_SIZE, DIR_ENTRY_SIZE);
      RewriteSlot(d, buf, blk0, i, j, Zeros(DIR_ENTRY_SIZE));
      assert Cut(j, Zeros(DIR_ENTRY_SIZE)) == Zeros(DIR_ENTRY_SIZE);
      dev.Write(blk0 + i, 1);
      if last {
        entries' := used;
      }
    }
  }

  /** `memset` of part of the buffer. */
  method PutZeros(dev: Disk, p: nat, n: nat)
    requires dev.Valid() && p + n <= FSBUF_SIZE
    modifies dev.fsbuf
    ensures dev.fsbuf[..] == Splice(old(dev.fsbuf[..]), p, Zeros(n))
  {
    forall k | p <= k < p + n {
      dev.fsbuf[k] := 0;
    }
  }

  // ---------------------------------------------------------------- writes seen as slots

  lemma SlotSame(d: seq<byte>, e: seq<byte>, p: nat, m: nat)
    requires |d| == |e| && p + (m + 1) * DIR_ENTRY_SIZE <= |d|
    requires forall q :: p + m * DIR_ENTRY_SIZE <= q < p + (m + 1) * DIR_ENTRY_SIZE ==> d[q] == e[q]
    ensures SlotAt(d, p, m) == SlotAt(e, p, m)
  {
    hide WordAt;
    var q := p + m * DIR_ENTRY_SIZE;
    assert d[q..q + 4] == e[q..q + 4];
    WordSame(d, q, e, q);
  }

  /** A slot that a write does not touch. */
  lemma SlotApart(d: seq<byte>, blk0: nat, m: nat, q: nat, b: seq<byte>)
    requires (blk0 + NR_DEFAULT_FILE_SECTS) * SECTOR_SIZE <= |d| && m < DIR_SLOTS && q + |b| <= |d|
    requires q + |b| <= SlotOff(blk0, m) || SlotOff(blk0, m) + DIR_ENTRY_SIZE <= q
    ensures Slots(Splice(d, q, b), blk0)[m] == Slots(d, blk0)[m]
  {
    hide SlotAt;
    SlotSame(Splice(d, q, b), d, blk0 * SECTOR_SIZE, m);
  }

  /** Nothing written outside the directory changes it. */
  lemma SlotsApart(d: seq<byte>, blk0: nat, q: nat, b: seq<byte>)
    requires (blk0 + NR_DEFAULT_FILE_SECTS) * SECTOR_SIZE <= |d| && q + |b| <= |d|
    requires q + |b| <= blk0 * SECTOR_SIZE || (blk0 + NR_DEFAULT_FILE_SECTS) * SECTOR_SIZE <= q
    ensures Slots(Splice(d, q, b), blk0) == Slots(d, blk0)
  {
    hide Slots, Splice;
    forall m | 0 <= m < DIR_SLOTS ensures Slots(Splice(d, q, b), blk0)[m] == Slots(d, blk0)[m] {
      SlotApart(d, blk0, m, q, b);
    }
  }

  /** A slot that was written as a whole. */
  lemma SlotWritten(d: seq<byte>, blk0: nat, at: nat, nr: word, b: seq<byte>)
    requires (blk0 + NR_DEFAULT_FILE_SECTS) * SECTOR_SIZE <= |d| && at < DIR_SLOTS && |b| >= 4
    requires SlotOff(blk0, at) + |b| <= |d| && b[..4] == WordBytes(nr)
    ensures var r := Slots(Splice(d, SlotOff(blk0, at), b), blk0)[at];
      r.nr == nr && |r.name| == MAX_FILENAME_LEN && |Slots(d, blk0)[at].name| == MAX_FILENAME_LEN &&
      forall k :: 0 <= k < MAX_FILENAME_LEN ==>
        r.name[k] == if 4 + k < |b| then b[4 + k] else Slots(d, blk0)[at].name[k]
  {
    hide WordAt, WordBytes;
    var p := SlotOff(blk0, at);
    var e := Splice(d, p, b);
    assert e[p..p + 4] == b[..4];
    WordIn(e, p, nr);
  }

  lemma WipeSlots(d: seq<byte>, blk0: nat, at: nat)
    requires (blk0 + NR_DEFAULT_FILE_SECTS) * SECTOR_SIZE <= |d| && at < DIR_SLOTS
    ensures Slots(Splice(d, SlotOff(blk0, at), Zeros(DIR_ENTRY_SIZE)), blk0) == Slots(d, blk0)[at := EMPTY]
  {
    hide Slots, Splice, WordAt, WordBytes;
    var q, b := SlotOff(blk0, at), Zeros(DIR_ENTRY_SIZE);
    ZeroWord();
    assert b[..4] == WordBytes(0);
    SlotWritten(d, blk0, at, 0, b);
    var s, r := Slots(d, blk0), Slots(Splice(d, q, b), blk0);
    assert r[at].name == Zeros(MAX_FILENAME_LEN);
    forall m | 0 <= m < DIR_SLOTS ensures r[m] == s[at := EMPTY][m] {
      if m != at { SlotApart(d, blk0, m, q, b); }
    }
  }

  lemma ZeroWord()
    ensures WordBytes(0) == [0, 0, 0, 0]
  {
    var z: seq<byte> := [0, 0, 0, 0];
    WordBack(z);
    assert ByteVal(0) == 0;
    assert WordAt(z, 0) == 0;
  }

  /** A zero over the first byte of a slot clears the low byte of its number. */
  lemma SlotSpilled(d: seq<byte>, e: seq<byte>, p: nat, m: nat)
    requires |d| == |e| && p + (m + 1) * DIR_ENTRY_SIZE <= |d| && e[p + m * DIR_ENTRY_SIZE] == 0
    requires forall q :: p + m * DIR_ENTRY_SIZE < q < p + (m + 1) * DIR_ENTRY_SIZE ==> d[q] == e[q]
    ensures SlotAt(e, p, m) == SlotAt(d, p, m).(nr := SlotAt(d, p, m).nr / 0x100 * 0x100)
  {
    hide WordAt;
    var q := p + m * DIR_ENTRY_SIZE;
    WordSpilled(d, e, q);
    assert d[q + 4..q + DIR_ENTRY_SIZE] == e[q + 4..q + DIR_ENTRY_SIZE];
  }

  lemma WordSpilled(d: seq<byte>, e: seq<byte>, q: nat)
    requires q + 4 <= |d| == |e| && e[q] == 0 && d[q + 1] == e[q + 1] && d[q + 2] == e[q + 2] && d[q + 3] == e[q + 3]
    ensures WordAt(e, q) == WordAt(d, q) / 0x100 * 0x100
  {
    hide ByteVal;
    var high := ByteVal(d[q + 1]) + 0x100 * (ByteVal(d[q + 2]) + 0x100 * ByteVal(d[q + 3]));
    Split(ByteVal(d[q]), high);
    ZeroByte();
    assert WordAt(d, q) == ByteVal(d[q]) + 0x100 * high;
    assert WordAt(e, q) == 0x100 * high;
  }

  lemma ZeroByte()
    ensures ByteVal(0) == 0
  {
  }

  /** A new entry on disk is `Enter` on the slots. */
  lemma EnterSlots(d: seq<byte>, blk0: nat, at: nat, nr: word, name: seq<byte>)
    requires (blk0 + NR_DEFAULT_FILE_SECTS) * SECTOR_SIZE <= |d| && at < DIR_SLOTS && |name| <= MAX_FILENAME_LEN
    ensures SlotOff(blk0, at) + |EntryBytes(at, nr, name)| <= |d| && |Slots(d, blk0)[at].name| == MAX_FILENAME_LEN
    ensures Slots(Splice(d, SlotOff(blk0, at), EntryBytes(at, nr, name)), blk0) == Enter(Slots(d, blk0), at, nr, name)
  {
    hide Slots, SlotAt, WordAt, WordBytes;
    var q, b := SlotOff(blk0, at), EntryBytes(at, nr, name);
    assert Spills(at, name) ==> at + 1 < DIR_SLOTS;
    assert b[..4] == WordBytes(nr);
    SlotWritten(d, blk0, at, nr, b);
    var s, e := Slots(d, blk0), Splice(d, q, b);
    var r, t := Slots(e, blk0), Enter(s, at, nr, name);
    assert r[at].name == NameOver(s[at].name, name);
    forall m | 0 <= m < DIR_SLOTS ensures r[m] == t[m] {
      if m == at + 1 && Spills(at, name) {
        SlotSpilled(d, e, blk0 * SECTOR_SIZE, m);
        SlotIs(d, blk0, m);
        SlotIs(e, blk0, m);
      } else if m != at {
        SlotApart(d, blk0, m, q, b);
      }
    }
  }

  lemma SlotIs(d: seq<byte>, blk0: nat, m: nat)
    requires (blk0 + NR_DEFAULT_FILE_SECTS) * SECTOR_SIZE <= |d| && m < DIR_SLOTS
    ensures Slots(d, blk0)[m] == SlotAt(d, blk0 * SECTOR_SIZE, m)
  {
  }
}
