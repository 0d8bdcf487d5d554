/** The root directory as a map from names to i-node numbers: what the scans of module Directory mean
    for a directory whose names are padded with zeros and whose free slots are zero, and exactly when
    adding and removing entries keeps it so. */
module DirectoryMap {
  import opened Const
  import opened BlockDevice
  import opened Words
  import opened Directory

  /** A name that `strip_path` produces and `search_file` looks up in the slots: not empty, no NUL. */
  predicate ProperName(name: seq<byte>) {
    0 < |name| <= MAX_FILENAME_LEN && forall k :: 0 <= k < |name| ==> name[k] != 0
  }

  lemma StrippedProper(path: seq<byte>)
    requires Stripped(path).Some?
    ensures Stripped(path).value != [] ==> ProperName(Stripped(path).value)
  {
    hide Stripped;
  }

  predicate Live(e: Slot) { e.nr != 0 && |e.name| == MAX_FILENAME_LEN && e.name[0] != 0 }

  /** `entries` slots hold live entries, with distinct names and numbers, or nothing; the rest of the
      extent is zero. */
  ghost predicate DirOk(s: seq<Slot>, entries: nat) {
    && |s| == DIR_SLOTS && entries < DIR_SLOTS
    && (forall m :: 0 <= m < entries ==> s[m] == EMPTY || Live(s[m]))
    && (forall m :: entries <= m < DIR_SLOTS ==> s[m] == EMPTY)
    && (forall m, k :: 0 <= m < k < entries && Live(s[m]) && Live(s[k]) ==>
         s[m].nr != s[k].nr && s[m].name != s[k].name)
  }

  /** `name` is bound to `nr`. */
  ghost predicate Bound(s: seq<Slot>, key: seq<byte>, nr: word) { nr != 0 && Slot(nr, key) in s }

  /** What `search_file` returns. */
  function Search(s: seq<Slot>, entries: nat, key: seq<byte>): word
    requires entries < DIR_SLOTS == |s|
  {
    Lookup(s[..Probed(entries)], key)
  }

  /** The directory implements a map, in spite of the extra slot probed: a search returns the number
      bound to the name, or 0 when nothing is. */
  lemma SearchIsLookup(s: seq<Slot>, entries: nat, key: seq<byte>)
    requires DirOk(s, entries) && |key| == MAX_FILENAME_LEN && key[0] != 0
    ensures forall nr: word :: nr != 0 ==> (Search(s, entries, key) == nr <==> Bound(s, key, nr))
  {
    hide FindName;
    var t := s[..Probed(entries)];
    var m := FindName(t, key);
    if m < |t| {
      assert s[m].name == key && m < entries && Live(s[m]);
      assert s[m] == Slot(s[m].nr, key);
    }
    forall nr: word | Bound(s, key, nr) ensures Search(s, entries, key) == nr {
      var k :| 0 <= k < |s| && s[k] == Slot(nr, key);
      assert k < entries && t[k].name == key;
    }
  }

  // ---------------------------------------------------------------- adding a name

  /** Where a new entry goes, and the number of entries then. */
  function Place(s: seq<Slot>, entries: nat): (at: nat)
    ensures at <= entries && at <= |s|
  {
    Min(FindNr(s, 0), entries)
  }

  function Grown(s: seq<Slot>, entries: nat): nat { if Place(s, entries) == entries then entries + 1 else entries }

  /** A 12-character name goes in front of an entry of the same sector whose number it spoils. */
  predicate Harms(s: seq<Slot>, at: nat, name: seq<byte>) {
    Spills(at, name) && at + 1 < |s| && s[at + 1].nr % 0x100 != 0
  }

  /** A proper name over an empty slot comes out padded; a slot behind a harmless NUL is unchanged. */
  lemma EnterEmpty(s: seq<Slot>, at: nat, nr: word, name: seq<byte>)
    requires at < |s| && s[at] == EMPTY && ProperName(name) && !Harms(s, at, name)
    ensures Enter(s, at, nr, name) == s[at := Slot(nr, Pad(name))]
  {
    assert NameOver(EMPTY.name, name) == Pad(name);
    if Spills(at, name) && at + 1 < |s| {
      var e := s[at + 1];
      assert e.nr / 0x100 * 0x100 == e.nr;
    }
  }

  /** A name over an old slot can be found again exactly when the old name was no longer, or was not there:
      `strcpy` leaves what lies behind its NUL, and `search_file` compares all twelve bytes. */
  lemma EnterOverIff(s: seq<Slot>, at: nat, nr: word, name: seq<byte>)
    requires at < |s| && |s[at].name| == MAX_FILENAME_LEN && |name| <= MAX_FILENAME_LEN
    ensures Enter(s, at, nr, name)[at] == Slot(nr, Pad(name)) <==>
      forall k :: |name| < k < MAX_FILENAME_LEN ==> s[at].name[k] == 0
  {
    var was, r := s[at].name, NameOver(s[at].name, name);
    assert Enter(s, at, nr, name)[at] == Slot(nr, r);
    if |name| < MAX_FILENAME_LEN {
      assert forall k :: |name| < k < MAX_FILENAME_LEN ==> r[k] == was[k] && Pad(name)[k] == 0;
      assert forall k :: 0 <= k <= |name| ==> r[k] == Pad(name)[k];
    }
  }

  lemma PlaceEmpty(s: seq<Slot>, entries: nat)
    requires DirOk(s, entries)
    ensures s[Place(s, entries)] == EMPTY
    ensures forall m :: 0 <= m < Place(s, entries) ==> Live(s[m])
  {
    hide FindNr;
  }

  /** A fresh name and number are added as one binding, and the directory stays well formed. */
  lemma EnterBinds(s: seq<Slot>, entries: nat, nr: word, name: seq<byte>)
    requires DirOk(s, entries) && entries + 1 < DIR_SLOTS && ProperName(name) && nr != 0
    requires FindNr(s, nr) == |s| && Search(s, entries, Pad(name)) == 0 && !Harms(s, Place(s, entries), name)
    ensures DirOk(Enter(s, Place(s, entries), nr, name), Grown(s, entries))
    ensures forall key, n :: Bound(Enter(s, Place(s, entries), nr, name), key, n) <==>
      (Bound(s, key, n) || (key == Pad(name) && n == nr))
  {
    hide FindNr, Pad;
    PadFirst(name);
    var at := Place(s, entries);
    PlaceEmpty(s, entries);
    EnterEmpty(s, at, nr, name);
    var t, e := s[at := Slot(nr, Pad(name))], Slot(nr, Pad(name));
    FreshName(s, entries, Pad(name));
    forall x: Slot | x.nr != 0 ensures x in t <==> (x in s || x == e) {
      if x in s {
        var k :| 0 <= k < |s| && s[k] == x;
        assert t[k] == x;
      }
      assert t[at] == e;
    }
  }

  lemma PadFirst(name: seq<byte>)
    requires ProperName(name)
    ensures Pad(name)[0] != 0
  {
  }

  lemma FreshName(s: seq<Slot>, entries: nat, key: seq<byte>)
    requires DirOk(s, entries) && |key| == MAX_FILENAME_LEN && key[0] != 0 && Search(s, entries, key) == 0
    ensures forall m :: 0 <= m < |s| && Live(s[m]) ==> s[m].name != key
  {
    hide FindName;
    SearchIsLookup(s, entries, key);
    forall m | 0 <= m < |s| && Live(s[m]) ensures s[m].name != key {
      var x := s[m];
      assert x == Slot(x.nr, x.name) && !Bound(s, key, x.nr);
    }
  }

  /** The condition is exact: the NUL of a 12-character name that falls on a live entry takes its
      binding away. */
  lemma EnterHarms(s: seq<Slot>, entries: nat, nr: word, name: seq<byte>)
    requires DirOk(s, entries) && entries + 1 < DIR_SLOTS && ProperName(name) && nr != 0
    requires FindNr(s, nr) == |s| && Search(s, entries, Pad(name)) == 0
    ensures Harms(s, Place(s, entries), name) <==>
      exists key, n :: Bound(s, key, n) && !Bound(Enter(s, Place(s, entries), nr, name), key, n)
  {
    hide FindNr;
    var at := Place(s, entries);
    if Harms(s, at, name) {
      PlaceEmpty(s, entries);
      FreshName(s, entries, Pad(name));
      var t, e := Enter(s, at, nr, name), s[at + 1];
      assert Live(e) && e == Slot(e.nr, e.name);
      assert Bound(s, e.name, e.nr);
      forall m | 0 <= m < |t| ensures t[m] != e {
        if m != at && m != at + 1 {
          assert t[m] == s[m];
        }
      }
      assert !Bound(t, e.name, e.nr);
    } else {
      EnterBinds(s, entries, nr, name);
    }
  }

  // ---------------------------------------------------------------- removing a name

  /** The number of entries after slot `at` has been removed. */
  function Shrunk(s: seq<Slot>, entries: nat, at: nat): nat
    requires at < |s|
  {
    if at + 1 == entries then Used(s[..at]) else entries
  }

  /** No free slot precedes a used one. */
  ghost predicate Compact(s: seq<Slot>) { forall i, j :: 0 <= i < j < |s| && s[j].nr != 0 ==> s[i].nr != 0 }

  /** If the used slots lie below `k`, there are at most `k`, and `k` only if all of them are used. */
  lemma {:induction false} UsedBound(s: seq<Slot>, k: nat)
    requires forall j :: k <= j < |s| ==> s[j].nr == 0
    ensures Used(s) <= k && (Used(s) == k ==> k <= |s| && forall i :: 0 <= i < k ==> s[i].nr != 0)
  {
    if s != [] {
      var t := s[..|s| - 1];
      if k >= |s| {
        UsedBound(t, k - 1);
      } else {
        UsedBound(t, k);
      }
    }
  }

  lemma {:induction false} UsedAll(s: seq<Slot>, k: nat)
    requires k <= |s| && forall j :: 0 <= j < |s| ==> (s[j].nr != 0 <==> j < k)
    ensures Used(s) == k
  {
    if s != [] {
      UsedAll(s[..|s| - 1], if k == |s| then k - 1 else k);
    }
  }

  /** The number of used slots is the end of the used slots exactly when no free slot precedes one. */
  lemma UsedIsEnd(s: seq<Slot>)
    ensures Compact(s) <==> forall j :: Used(s) <= j < |s| ==> s[j].nr == 0
  {
    if Compact(s) {
      var k := FindNr(s, 0);
      forall j | 0 <= j < |s| ensures s[j].nr != 0 <==> j < k {
      }
      UsedAll(s, k);
    }
    if forall j :: Used(s) <= j < |s| ==> s[j].nr == 0 {
      UsedBound(s, Used(s));
    }
  }

  /** Removing a bound number takes away its binding and no other, and leaves the directory well
      formed exactly when the slot is not the last or no free slot precedes a used one before it. */
  lemma RemoveUnbinds(s: seq<Slot>, entries: nat, nr: word)
    requires DirOk(s, entries) && nr != 0 && FindNr(s, nr) < entries
    ensures var at := FindNr(s, nr);
      DirOk(s[at := EMPTY], Shrunk(s, entries, at)) <==> (at + 1 < entries || Compact(s[..at]))
    ensures forall key, n :: Bound(s[FindNr(s, nr) := EMPTY], key, n) <==> Bound(s, key, n) && n != nr
  {
    hide FindNr;
    var at := FindNr(s, nr);
    var t, n := s[at := EMPTY], Shrunk(s, entries, at);
    assert Live(s[at]);
    UsedIsEnd(s[..at]);
    if at + 1 == entries {
      assert forall j :: 0 <= j < at ==> s[..at][j] == s[j] == t[j];
      if DirOk(t, n) {
        forall j | Used(s[..at]) <= j < at ensures s[..at][j].nr == 0 {
          assert t[j] == EMPTY;
        }
      }
    }
    forall x: Slot | x.nr != 0 ensures x in t <==> (x in s && x.nr != nr) {
      if x in t {
        var k :| 0 <= k < |t| && t[k] == x;
        assert k != at && s[k] == x;
      }
      if x in s && x.nr != nr {
        var k :| 0 <= k < |s| && s[k] == x;
        assert t[k] == x;
      }
    }
  }

  /** Creating and removing a fresh name restores every slot, whatever holes there are. */
  lemma EnterRemove(s: seq<Slot>, entries: nat, nr: word, name: seq<byte>)
    requires DirOk(s, entries) && entries + 1 < DIR_SLOTS && ProperName(name) && nr != 0
    requires FindNr(s, nr) == |s| && Search(s, entries, Pad(name)) == 0 && !Harms(s, Place(s, entries), name)
    ensures var at := Place(s, entries);
      var t := Enter(s, at, nr, name);
      FindNr(t, nr) == at && t[at := EMPTY] == s && DirOk(s, Shrunk(t, Grown(s, entries), at))
  {
    hide FindNr, Pad;
    var at := Place(s, entries);
    PlaceEmpty(s, entries);
    EnterEmpty(s, at, nr, name);
    EnterBinds(s, entries, nr, name);
    var t := Enter(s, at, nr, name);
    assert t[at].nr == nr && forall j :: 0 <= j < |s| && j != at ==> t[j] == s[j];
    assert forall j :: 0 <= j < at ==> t[..at][j] == s[j];
    RemoveUnbinds(t, Grown(s, entries), nr);
  }

  /** A directory of four slots, the second of them free: when the last entry is removed, only the two used
      slots before it are counted, and the live entry in the third slot is cut off. */
  lemma RemoveLoses(a: Slot, b: Slot, c: Slot, d: Slot)
    requires Live(a) && Live(c) && Live(d) && b == EMPTY
    requires a.nr != c.nr && a.nr != d.nr && c.nr != d.nr && a.name != c.name && a.name != d.name && c.name != d.name
    ensures exists s :: DirOk(s, 4) && s[2] == c && FindNr(s, d.nr) == 3 && Shrunk(s, 4, 3) == 2
  {
    hide FindNr;
    var s := [a, b, c, d] + seq(DIR_SLOTS - 4, k => EMPTY);
    assert s[0] == a && s[1] == b && s[2] == c && s[3] == d;
    assert DirOk(s, 4);
    var t := s[..3];
    UsedNext(s, 2);
    UsedNext(s, 1);
    UsedNext(s, 0);
    UsedNone(s[..0]);
    assert FindNr(s, d.nr) == 3;
  }
}
