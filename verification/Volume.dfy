/** The file system on disk as a value: the two bitmaps as sets of bits, the i-node records and the
    slots of the root directory. What creating and unlinking a file do to it, and the consistency they keep. */
module Volume {
  import opened Const
  import opened BlockDevice
  import opened SectorMap
  import opened Words
  import opened Inodes
  import opened Directory
  import opened DirectoryMap
  import opened FileTable

  datatype Vol = Vol(inodeMap: set<int>, sectMap: set<int>, recs: seq<Inode>, slots: seq<Slot>)

  /** i-node numbers are bits of one map sector; `mkfs` makes room for as many records. */
  const NR_RECORDS := 4096

  /** The bits of the sector map that stand for the sectors of a file: bit `b` is sector `b - 1 + n_1st_sect`. */
  function FirstBit(sb: SuperBlock, x: Inode): int { x.startSect - sb.n1stSect + 1 }

  predicate InExtent(sb: SuperBlock, x: Inode, b: int) { FirstBit(sb, x) <= b < FirstBit(sb, x) + x.nrSects }

  function MapBits(sb: SuperBlock): nat { sb.nrSmapSects * SECTOR_BITS }

  predicate InUse(v: Vol, num: int) { 1 <= num < NR_RECORDS <= |v.recs| && num in v.inodeMap }

  function Rec(v: Vol, num: int): Inode
    requires 1 <= num <= |v.recs|
  {
    v.recs[num - 1]
  }

  function Entries(v: Vol): nat
    requires |v.recs| > 0
  {
    Rec(v, ROOT_INODE).size / DIR_ENTRY_SIZE
  }

  /** Every sector number is a word. */
  predicate Geometry(sb: SuperBlock) {
    sb.nrInodeSects * INODES_PER_SECT == NR_RECORDS && MapBits(sb) + sb.n1stSect < WORD
  }

  /** Extents lie on the map, regular files have one, and no two of them meet. */
  ghost predicate ExtentsOk(v: Vol, sb: SuperBlock) {
    && (forall n :: InUse(v, n) && Rec(v, n).nrSects > 0 ==>
          1 <= FirstBit(sb, Rec(v, n)) && FirstBit(sb, Rec(v, n)) + Rec(v, n).nrSects <= MapBits(sb))
    && (forall n :: InUse(v, n) && Rec(v, n).mode == I_REGULAR ==> Rec(v, n).nrSects > 0)
    && (forall n, m, b :: InUse(v, n) && InUse(v, m) && InExtent(sb, Rec(v, n), b) && InExtent(sb, Rec(v, m), b) ==>
         n == m)
  }

  /** The sector map is bit 0 and the extents of the i-nodes in use, and nothing else. */
  ghost predicate SmapExact(v: Vol, sb: SuperBlock) {
    && 0 in v.sectMap
    && (forall b :: b in v.sectMap && b != 0 ==> exists n :: InUse(v, n) && InExtent(sb, Rec(v, n), b))
    && (forall n, b :: InUse(v, n) && InExtent(sb, Rec(v, n), b) ==> b in v.sectMap)
  }

  /** The i-node map is bit 0 and numbers of records; the root directory is in use. */
  ghost predicate ImapOk(v: Vol, sb: SuperBlock) {
    && |v.recs| == NR_RECORDS && 0 in v.inodeMap && (forall n :: n in v.inodeMap ==> 0 <= n < NR_RECORDS)
    && ROOT_INODE in v.inodeMap
    && Rec(v, ROOT_INODE).mode == I_DIRECTORY && Rec(v, ROOT_INODE).startSect == sb.n1stSect
    && Rec(v, ROOT_INODE).nrSects == NR_DEFAULT_FILE_SECTS && Rec(v, ROOT_INODE).size % DIR_ENTRY_SIZE == 0
  }

  /** Directory entries name i-nodes in use, each at most once. */
  ghost predicate NamesOk(v: Vol)
    requires |v.recs| > 0
  {
    && |v.slots| == DIR_SLOTS && Entries(v) < DIR_SLOTS
    && (forall m :: 0 <= m < DIR_SLOTS ==> |v.slots[m].name| == MAX_FILENAME_LEN)
    && (forall m :: 0 <= m < Entries(v) && v.slots[m].nr != 0 ==> InUse(v, v.slots[m].nr))
    && (forall m, k :: 0 <= m < k < Entries(v) && v.slots[m].nr != 0 ==> v.slots[m].nr != v.slots[k].nr)
  }

  ghost predicate Consistent(v: Vol, sb: SuperBlock) {
    ImapOk(v, sb) && ExtentsOk(v, sb) && SmapExact(v, sb) && NamesOk(v)
  }

  // ---------------------------------------------------------------- create

  function WithEntries(v: Vol, entries: nat): Vol
    requires |v.recs| > 0 && entries <= DIR_SLOTS
  {
    v.(recs := v.recs[ROOT_INODE - 1 := Rec(v, ROOT_INODE).(size := entries * DIR_ENTRY_SIZE)])
  }

  /** The record of a new file (fs/open.c:355-362). */
  function NewRecord(sb: SuperBlock, first: int): Inode
    requires Geometry(sb) && 0 <= first <= MapBits(sb) && sb.n1stSect > 0
  {
    Inode(I_REGULAR, 0, first - 1 + sb.n1stSect, NR_DEFAULT_FILE_SECTS)
  }

  /** The new i-node and its sectors, without a name yet. */
  ghost function Allocated(v: Vol, sb: SuperBlock, nr: nat, first: int): Vol
    requires Geometry(sb) && 0 <= first <= MapBits(sb) && sb.n1stSect > 0 && 1 <= nr <= |v.recs|
  {
    v.(inodeMap := v.inodeMap + {nr}, sectMap := v.sectMap + Range(first, NR_DEFAULT_FILE_SECTS),
       recs := v.recs[nr - 1 := NewRecord(sb, first)])
  }

  /** `new_dir_entry` (fs/open.c:380-426). */
  function Named(v: Vol, nr: word, name: seq<byte>): Vol
    requires |v.recs| > 0 && Entries(v) < DIR_SLOTS == |v.slots| && |name| <= MAX_FILENAME_LEN
    requires |v.slots[Place(v.slots, Entries(v))].name| == MAX_FILENAME_LEN
  {
    WithEntries(v.(slots := Enter(v.slots, Place(v.slots, Entries(v)), nr, name)), Grown(v.slots, Entries(v)))
  }

  /** The i-nodes after an allocation are those before it and the new one. */
  lemma AllocatedUses(v: Vol, sb: SuperBlock, nr: nat, first: int)
    requires Geometry(sb) && sb.n1stSect > 0 && ImapOk(v, sb) && 0 in v.sectMap
    requires FirstFit(v.inodeMap, NR_RECORDS, 1, nr) && FirstFit(v.sectMap, MapBits(sb), NR_DEFAULT_FILE_SECTS, first)
    ensures 1 <= nr < NR_RECORDS == |v.recs| && 1 <= first && first + NR_DEFAULT_FILE_SECTS <= MapBits(sb)
    ensures var w, x := Allocated(v, sb, nr, first), NewRecord(sb, first);
      && |w.recs| == NR_RECORDS && InUse(w, nr) && Rec(w, nr) == x && !InUse(v, nr)
      && (forall n :: InUse(w, n) <==> InUse(v, n) || n == nr)
      && (forall n :: InUse(v, n) ==> Rec(w, n) == Rec(v, n))
      && (forall b :: InExtent(sb, x, b) <==> first <= b < first + NR_DEFAULT_FILE_SECTS)
      && (forall b :: InExtent(sb, x, b) ==> b !in v.sectMap)
      && FirstBit(sb, x) == first && w.sectMap == v.sectMap + Range(first, NR_DEFAULT_FILE_SECTS)
  {
    assert nr !in v.inodeMap && first !in v.sectMap;
  }

  lemma AllocatedExtents(v: Vol, sb: SuperBlock, nr: nat, first: int)
    requires Geometry(sb) && sb.n1stSect > 0 && ImapOk(v, sb) && ExtentsOk(v, sb) && SmapExact(v, sb)
    requires FirstFit(v.inodeMap, NR_RECORDS, 1, nr) && FirstFit(v.sectMap, MapBits(sb), NR_DEFAULT_FILE_SECTS, first)
    ensures 1 <= nr < NR_RECORDS && 1 <= first
    ensures ExtentsOk(Allocated(v, sb, nr, first), sb) && SmapExact(Allocated(v, sb, nr, first), sb)
  {
    hide FirstBit, InExtent, FirstFit, ImapOk, Allocated;
    AllocatedUses(v, sb, nr, first);
    var w := Allocated(v, sb, nr, first);
    forall b | b in w.sectMap && b != 0 ensures exists n :: InUse(w, n) && InExtent(sb, Rec(w, n), b) {
      if b in v.sectMap {
        var n :| InUse(v, n) && InExtent(sb, Rec(v, n), b);
        assert InUse(w, n) && InExtent(sb, Rec(w, n), b);
      } else {
        assert InUse(w, nr) && InExtent(sb, Rec(w, nr), b);
      }
    }
  }

  lemma AllocatedNames(v: Vol, sb: SuperBlock, nr: nat, first: int)
    requires Geometry(sb) && sb.n1stSect > 0 && ImapOk(v, sb) && NamesOk(v)
    requires 1 < nr < NR_RECORDS && 0 <= first <= MapBits(sb)
    ensures NamesOk(Allocated(v, sb, nr, first)) && ImapOk(Allocated(v, sb, nr, first), sb)
  {
    var w := Allocated(v, sb, nr, first);
    assert forall n :: InUse(v, n) ==> InUse(w, n);
  }

  /** A change of the size of the root directory is no business of the maps. */
  lemma ResizedKeeps(v: Vol, sb: SuperBlock, entries: nat)
    requires ImapOk(v, sb) && ExtentsOk(v, sb) && SmapExact(v, sb) && entries <= DIR_SLOTS
    ensures var w := WithEntries(v, entries);
      ImapOk(w, sb) && ExtentsOk(w, sb) && SmapExact(w, sb) && Entries(w) == entries
  {
    var w := WithEntries(v, entries);
    assert forall n :: InUse(v, n) <==> InUse(w, n);
    assert forall n :: InUse(v, n) ==>
      Rec(w, n).startSect == Rec(v, n).startSect && Rec(w, n).nrSects == Rec(v, n).nrSects;
    assert forall n, b :: InUse(v, n) ==> (InExtent(sb, Rec(w, n), b) <==> InExtent(sb, Rec(v, n), b));
    forall b | b in w.sectMap && b != 0 ensures exists n :: InUse(w, n) && InExtent(sb, Rec(w, n), b) {
      var n :| InUse(v, n) && InExtent(sb, Rec(v, n), b);
      assert InUse(w, n) && InExtent(sb, Rec(w, n), b);
    }
  }

  /** The size of any other file is no business of the maps or the directory. */
  lemma SizedKeeps(v: Vol, sb: SuperBlock, n: nat, size: word)
    requires Consistent(v, sb) && 1 <= n <= NR_RECORDS && n != ROOT_INODE
    ensures Consistent(v.(recs := v.recs[n - 1 := Rec(v, n).(size := size)]), sb)
  {
    var w := v.(recs := v.recs[n - 1 := Rec(v, n).(size := size)]);
    assert forall k :: InUse(v, k) <==> InUse(w, k);
    assert forall k :: InUse(v, k) ==>
      Rec(w, k).startSect == Rec(v, k).startSect && Rec(w, k).nrSects == Rec(v, k).nrSects
        && Rec(w, k).mode == Rec(v, k).mode;
    assert forall k, b :: InUse(v, k) ==> (InExtent(sb, Rec(w, k), b) <==> InExtent(sb, Rec(v, k), b));
    forall b | b in w.sectMap && b != 0 ensures exists k :: InUse(w, k) && InExtent(sb, Rec(w, k), b) {
      var k :| InUse(v, k) && InExtent(sb, Rec(v, k), b);
      assert InUse(w, k) && InExtent(sb, Rec(w, k), b);
    }
  }

  /** The number of the entry behind the new one after the NUL of a 12-character name has cleared its low byte. */
  function SpoiledNr(v: Vol): word
    requires |v.recs| > 0 && Place(v.slots, Entries(v)) + 1 < |v.slots|
  {
    v.slots[Place(v.slots, Entries(v)) + 1].nr / 0x100 * 0x100
  }

  /** When a 12-character name goes in front of an entry of the same sector, what is left of that entry's
      number is 0, or an i-node in use that no other entry names. */
  predicate Harmless(v: Vol, name: seq<byte>)
    requires |v.recs| > 0 && Entries(v) + 1 < DIR_SLOTS == |v.slots|
  {
    var at := Place(v.slots, Entries(v));
    Spills(at, name) && at + 1 < Entries(v) ==>
      SpoiledNr(v) == 0 || (InUse(v, SpoiledNr(v)) && forall m :: 0 <= m < Entries(v) && m != at + 1 ==>
        v.slots[m].nr != SpoiledNr(v))
  }

  /** The slots after a new name, by number. */
  lemma NamedSlotAt(v: Vol, nr: word, name: seq<byte>, m: nat)
    requires |v.recs| == NR_RECORDS && NamesOk(v) && |name| <= MAX_FILENAME_LEN && Entries(v) + 1 < DIR_SLOTS
      && m < DIR_SLOTS
    ensures var at, w := Place(v.slots, Entries(v)), Named(v, nr, name);
      && |w.slots| == DIR_SLOTS && |w.slots[m].name| == MAX_FILENAME_LEN && w.inodeMap == v.inodeMap
           && |w.recs| == NR_RECORDS
      && Entries(w) == Grown(v.slots, Entries(v))
      && w.slots[m].nr == (if m == at then nr else if m == at + 1 && Spills(at, name)
           then SpoiledNr(v) else v.slots[m].nr)
  {
    hide FindNr, NameOver;
  }

  lemma NamedNames(v: Vol, nr: word, name: seq<byte>)
    requires |v.recs| == NR_RECORDS && NamesOk(v) && InUse(v, nr) && |name| <= MAX_FILENAME_LEN
      && Entries(v) + 1 < DIR_SLOTS
    requires forall m :: 0 <= m < Entries(v) ==> v.slots[m].nr != nr
    ensures NamesOk(Named(v, nr, name)) <==>
      Harmless(v, name) && !(Spills(Place(v.slots, Entries(v)), name) && Place(v.slots, Entries(v)) + 1 < Entries(v)
        && SpoiledNr(v) == nr)
  {
    hide FindNr, NameOver, Named;
    var at, w := Place(v.slots, Entries(v)), Named(v, nr, name);
    forall m | 0 <= m < DIR_SLOTS
      ensures |w.slots| == DIR_SLOTS && |w.slots[m].name| == MAX_FILENAME_LEN
      ensures w.slots[m].nr == (if m == at then nr else if m == at + 1 && Spills(at, name)
        then SpoiledNr(v) else v.slots[m].nr)
    {
      NamedSlotAt(v, nr, name, m);
    }
    NamedSlotAt(v, nr, name, at);
    assert forall n :: InUse(v, n) <==> InUse(w, n);
    if NamesOk(w) && Spills(at, name) && at + 1 < Entries(v) && SpoiledNr(v) != 0 {
      assert w.slots[at + 1].nr == SpoiledNr(v) && w.slots[at].nr == nr;
      assert forall m :: 0 <= m < Entries(w) && m != at && m != at + 1 ==> w.slots[m].nr == v.slots[m].nr;
    }
  }

  /** An unharmed entry keeps its number. */
  lemma HarmlessIf(v: Vol, name: seq<byte>)
    requires |v.recs| > 0 && NamesOk(v) && Entries(v) + 1 < DIR_SLOTS
      && !Harms(v.slots, Place(v.slots, Entries(v)), name)
    ensures Harmless(v, name)
  {
    hide FindNr;
    var at := Place(v.slots, Entries(v));
    if Spills(at, name) && at + 1 < Entries(v) {
      assert SpoiledNr(v) == v.slots[at + 1].nr;
    }
  }

  /** Creating a file (the lowest free number, the first free run of sectors, the first free slot) keeps
      the file system consistent if and only if its name is harmless. */
  lemma CreateKeepsIff(v: Vol, sb: SuperBlock, nr: word, first: int, name: seq<byte>)
    requires Consistent(v, sb) && Geometry(sb) && sb.n1stSect > 0 && |name| <= MAX_FILENAME_LEN
    requires FirstFit(v.inodeMap, NR_RECORDS, 1, nr) && FirstFit(v.sectMap, MapBits(sb), NR_DEFAULT_FILE_SECTS, first)
    requires Entries(v) + 1 < DIR_SLOTS
    ensures 1 <= nr < NR_RECORDS
    ensures Consistent(Named(Allocated(v, sb, nr, first), nr, name), sb) <==> Harmless(v, name)
  {
    hide ImapOk, ExtentsOk, SmapExact, Named, Allocated, Harmless;
    assert 0 in v.inodeMap && ROOT_INODE in v.inodeMap && nr !in v.inodeMap && |v.recs| == NR_RECORDS
      by { ImapFacts(v, sb); }
    AllocatedExtents(v, sb, nr, first);
    AllocatedNames(v, sb, nr, first);
    var w := Allocated(v, sb, nr, first);
    assert Entries(w) == Entries(v) && w.slots == v.slots && InUse(w, nr) by { AllocatedSame(v, sb, nr, first); }
    NamedNames(w, nr, name);
    HarmlessSame(v, sb, nr, first, name);
    var u := w.(slots := Enter(w.slots, Place(w.slots, Entries(w)), nr, name));
    SlotsApartFromMaps(w, u, sb);
    ResizedKeeps(u, sb, Grown(w.slots, Entries(w)));
    NamedIs(w, nr, name);
  }

  /** Whether a name is harmless does not depend on the new number. */
  lemma HarmlessSame(v: Vol, sb: SuperBlock, nr: nat, first: int, name: seq<byte>)
    requires Geometry(sb) && 0 <= first <= MapBits(sb) && sb.n1stSect > 0 && 1 < nr < |v.recs| == NR_RECORDS
      && nr !in v.inodeMap
    requires Entries(v) + 1 < DIR_SLOTS == |v.slots|
    ensures var w, at := Allocated(v, sb, nr, first), Place(v.slots, Entries(v));
      && |w.recs| == |v.recs| && Entries(w) == Entries(v) && w.slots == v.slots
      && (Harmless(v, name) <==> Harmless(w, name) && !(Spills(at, name) && at + 1 < Entries(v) && SpoiledNr(w) == nr))
  {
    hide FindNr;
    AllocatedSame(v, sb, nr, first);
    var w := Allocated(v, sb, nr, first);
    assert forall n :: InUse(w, n) <==> InUse(v, n) || n == nr;
  }

  lemma ImapFacts(v: Vol, sb: SuperBlock)
    requires ImapOk(v, sb)
    ensures |v.recs| == NR_RECORDS && 0 in v.inodeMap && ROOT_INODE in v.inodeMap
  {
  }

  lemma AllocatedSame(v: Vol, sb: SuperBlock, nr: nat, first: int)
    requires Geometry(sb) && 0 <= first <= MapBits(sb) && sb.n1stSect > 0 && 1 < nr < |v.recs| == NR_RECORDS
    ensures var w := Allocated(v, sb, nr, first);
      |w.recs| == |v.recs| && Entries(w) == Entries(v) && w.slots == v.slots && InUse(w, nr)
  {
  }

  lemma NamedIs(v: Vol, nr: word, name: seq<byte>)
    requires |v.recs| > 0 && Entries(v) < DIR_SLOTS == |v.slots| && |name| <= MAX_FILENAME_LEN
    requires |v.slots[Place(v.slots, Entries(v))].name| == MAX_FILENAME_LEN
    ensures Named(v, nr, name) ==
      WithEntries(v.(slots := Enter(v.slots, Place(v.slots, Entries(v)), nr, name)), Grown(v.slots, Entries(v)))
  {
  }

  /** The slots are no business of the maps either. */
  lemma SlotsApartFromMaps(v: Vol, w: Vol, sb: SuperBlock)
    requires w.inodeMap == v.inodeMap && w.sectMap == v.sectMap && w.recs == v.recs
    requires ImapOk(v, sb) && ExtentsOk(v, sb) && SmapExact(v, sb)
    ensures ImapOk(w, sb) && ExtentsOk(w, sb) && SmapExact(w, sb)
  {
    assert forall n :: InUse(v, n) <==> InUse(w, n);
    forall b | b in w.sectMap && b != 0 ensures exists n :: InUse(w, n) && InExtent(sb, Rec(w, n), b) {
      var n :| InUse(v, n) && InExtent(sb, Rec(v, n), b);
      assert InUse(w, n) && InExtent(sb, Rec(w, n), b);
    }
  }

  // ---------------------------------------------------------------- unlink

  /** The maps and the record after fs/link.c:49-106. */
  ghost function Freed(v: Vol, sb: SuperBlock, nr: nat): Vol
    requires 1 <= nr <= |v.recs|
  {
    v.(inodeMap := v.inodeMap - {nr}, sectMap := v.sectMap - Range(FirstBit(sb, Rec(v, nr)), Rec(v, nr).nrSects),
       recs := v.recs[nr - 1 := NO_RECORD])
  }

  /** The directory after fs/link.c:113-155. */
  function Unnamed(v: Vol, nr: word): Vol
    requires |v.recs| > 0 && Entries(v) <= DIR_SLOTS && FindNr(v.slots, nr) < |v.slots| == DIR_SLOTS
  {
    var at := FindNr(v.slots, nr);
    var e := Shrunk(v.slots, Entries(v), at);
    var w := v.(slots := v.slots[at := EMPTY]);
    if at + 1 == Entries(v) then WithEntries(w, e) else w
  }

  /** In a consistent file system no assertion of `do_unlink` can fail: the bit of the i-node and every
      bit of its extent are set. */
  lemma UnlinkAsserts(v: Vol, sb: SuperBlock, nr: nat)
    requires Consistent(v, sb) && InUse(v, nr)
    ensures nr in v.inodeMap && Range(FirstBit(sb, Rec(v, nr)), Rec(v, nr).nrSects) <= v.sectMap
    ensures Rec(v, nr).nrSects > 0 ==>
      1 <= FirstBit(sb, Rec(v, nr)) && FirstBit(sb, Rec(v, nr)) + Rec(v, nr).nrSects <= MapBits(sb)
  {
    forall b | b in Range(FirstBit(sb, Rec(v, nr)), Rec(v, nr).nrSects) ensures b in v.sectMap {
      assert InExtent(sb, Rec(v, nr), b);
    }
  }

  lemma FreedExtents(v: Vol, sb: SuperBlock, nr: nat)
    requires ImapOk(v, sb) && ExtentsOk(v, sb) && SmapExact(v, sb) && InUse(v, nr)
    ensures ExtentsOk(Freed(v, sb, nr), sb) && SmapExact(Freed(v, sb, nr), sb)
  {
    var w := Freed(v, sb, nr);
    assert forall n :: InUse(w, n) ==> InUse(v, n) && n != nr && Rec(w, n) == Rec(v, n);
    forall b | b in w.sectMap && b != 0 ensures exists n :: InUse(w, n) && InExtent(sb, Rec(w, n), b) {
      var n :| InUse(v, n) && InExtent(sb, Rec(v, n), b);
      assert n != nr;
      assert InUse(w, n) && InExtent(sb, Rec(w, n), b);
    }
    forall n, b | InUse(w, n) && InExtent(sb, Rec(w, n), b) ensures b in w.sectMap {
      assert InExtent(sb, Rec(v, n), b) && !InExtent(sb, Rec(v, nr), b);
    }
    assert 0 in w.sectMap;
  }

  lemma FreedImap(v: Vol, sb: SuperBlock, nr: nat)
    requires ImapOk(v, sb) && InUse(v, nr) && nr != ROOT_INODE
    ensures var w := Freed(v, sb, nr);
      ImapOk(w, sb) && Rec(w, ROOT_INODE) == Rec(v, ROOT_INODE) && w.slots == v.slots
      && forall n :: InUse(v, n) && n != nr ==> InUse(w, n)
  {
  }

  /** Every other entry still names an i-node in use. */
  lemma UnnamedNames(v: Vol, w: Vol, nr: word)
    requires |v.recs| == |w.recs| == NR_RECORDS && NamesOk(v) && nr != 0 && FindNr(v.slots, nr) < Entries(v)
    requires Rec(w, ROOT_INODE) == Rec(v, ROOT_INODE) && w.slots == v.slots
    requires forall n :: InUse(v, n) && n != nr ==> InUse(w, n)
    ensures NamesOk(Unnamed(w, nr))
  {
    hide FindNr, Used;
    var at := FindNr(v.slots, nr);
    var u := Unnamed(w, nr);
    assert Entries(u) == Shrunk(v.slots, Entries(v), at) <= Entries(v);
    assert forall n :: InUse(w, n) ==> InUse(u, n);
    forall m | 0 <= m < Entries(u) && u.slots[m].nr != 0 ensures InUse(u, u.slots[m].nr) {
      assert m != at && u.slots[m] == v.slots[m];
      assert v.slots[m].nr != nr;
    }
  }

  /** Removing a file keeps the file system consistent, whether or not the directory shrinks too far. */
  lemma UnlinkKeeps(v: Vol, sb: SuperBlock, nr: word)
    requires Consistent(v, sb) && InUse(v, nr) && nr != ROOT_INODE && FindNr(v.slots, nr) < Entries(v)
    ensures Consistent(Unnamed(Freed(v, sb, nr), nr), sb)
  {
    hide ExtentsOk, SmapExact, Freed, Used;
    ImapFacts(v, sb);
    FreedExtents(v, sb, nr);
    FreedImap(v, sb, nr);
    var w := Freed(v, sb, nr);
    UnnamedNames(v, w, nr);
    var u := w.(slots := w.slots[FindNr(w.slots, nr) := EMPTY]);
    SlotsApartFromMaps(w, u, sb);
    ResizedKeeps(u, sb, Shrunk(w.slots, Entries(w), FindNr(w.slots, nr)));
  }

  /** Creating a file and removing it restores both maps, bit for bit. */
  lemma CreateUnlink(v: Vol, sb: SuperBlock, nr: nat, first: int)
    requires Geometry(sb) && sb.n1stSect > 0 && 1 <= nr <= |v.recs| && nr !in v.inodeMap
    requires FirstFit(v.sectMap, MapBits(sb), NR_DEFAULT_FILE_SECTS, first)
    ensures var w := Freed(Allocated(v, sb, nr, first), sb, nr); w.inodeMap == v.inodeMap && w.sectMap == v.sectMap
  {
    var w := Freed(Allocated(v, sb, nr, first), sb, nr);
    assert FirstBit(sb, NewRecord(sb, first)) == first;
    assert w.sectMap == v.sectMap;
  }
}
