/** A run in which an entry of an earlier file system is opened. `mkfs` clears the first sector of the directory only,
    and the search compares the slot behind the last entry too: once 28 files fill that sector and one slot more, the
    slot behind them is an old one, with a number that is not in use. */
module StaleEntry {
  import opened SectorMap
  import opened Directory
  import opened DirectoryMap
  import opened FileTable
  import opened Volume
  import opened MakeFs
  import opened FileSystem
  import opened FileSystemRuns
  import opened HarmfulName

  const FILES := 28
  /** Behind five entries and 28 files. */
  const OLD := 33

  /** What the device held before: slot 33 names i-node 34, whose record is that of a regular file. */
  predicate Old(v: Vol) {
    && |v.recs| == NR_RECORDS && |v.slots| == DIR_SLOTS
    && v.slots[OLD] == Slot(OLD + 1, LONG) && v.recs[OLD].mode == I_REGULAR
  }

  /** And slot 32 is free. */
  predicate HeldBefore(v: Vol) { Old(v) && v.slots[OLD - 1] == EMPTY }

  /** The five entries, `k` files, free slots, and behind them what was there before. */
  predicate Listed(v: Vol, k: nat) {
    && Old(v) && k <= FILES
    && (forall j :: 0 <= j < 5 ==> v.slots[j] == InitialSlot(j))
    && (forall j :: 5 <= j < 5 + k ==> v.slots[j].name == Pad(Name(j - 5)))
    && (forall j :: 5 + k <= j < OLD ==> v.slots[j] == EMPTY)
  }

  lemma OtherName(v: Vol, k: nat, j: nat)
    requires Listed(v, k) && k < FILES && j < OLD
    ensures v.slots[j].name != Pad(Name(k))
  {
    hide Pad, Name, Stripped, InitialName;
    NameFacts(k);
    if j < 5 {
      BootBytes();
    } else if j < 5 + k {
      NamesApart(j - 5, k);
    }
  }

  /** None of the slots that the search compares has the name of the next file. */
  lemma NotListed(v: Vol, k: nat)
    requires Filled(v, k) && Listed(v, k) && k < FILES
    ensures DirShape(v) && PathInode(v, Name(k)) == 0
  {
    hide Pad, Name, Stripped, FindName, Listed;
    NameFacts(k);
    var n := Probed(Entries(v));
    assert n <= OLD <= |v.slots|;
    forall j | 0 <= j < n ensures v.slots[..n][j].name != Pad(Name(k)) { OtherName(v, k, j); }
    assert FindName(v.slots[..n], Pad(Name(k))) == n;
  }

  lemma ReadyToCreate(x: State, k: nat)
    requires Sound(x, TIGHT) && Idle(x) && Filled(x.v, k) && Listed(x.v, k) && k < FILES
    ensures Creatable(x, TIGHT, 6 + k, First(k), Name(k))
  {
    hide Sound, Idle, Name, Pad, Taken, First, FirstFit, PathInode;
    TightFacts();
    TakenNext(k);
    NumberNext(k);
    NameFacts(k);
    NotListed(x.v, k);
  }

  lemma ListedNext(v: Vol, w: Vol, k: nat)
    requires Filled(v, k) && Listed(v, k) && k < FILES && Nameable(v, Name(k))
      && Nameable(Allocated(v, TIGHT, 6 + k, First(k)), Name(k))
    requires Geometry(TIGHT) && 1 <= First(k) <= MapBits(TIGHT)
      && w == Named(Allocated(v, TIGHT, 6 + k, First(k)), 6 + k, Name(k))
    ensures Listed(w, k + 1)
  {
    hide FindNr, NameOver, Taken, First, Name, Pad, Enter, Stripped, InitialName;
    NameFacts(k);
    StrippedProper(Name(k));
    assert Place(v.slots, Entries(v)) == 5 + k;
    NamedSlots(v, w, TIGHT, 6 + k, First(k), Name(k));
    assert v.slots[5 + k] == EMPTY && !Harms(v.slots, 5 + k, Name(k));
    EnterEmpty(v.slots, 5 + k, 6 + k, Name(k));
    assert w.slots == v.slots[5 + k := Slot(6 + k, Pad(Name(k)))];
    OtherRecords(v, w, k);
  }

  lemma OtherRecords(v: Vol, w: Vol, k: nat)
    requires Filled(v, k) && k < FILES && Nameable(v, Name(k))
      && Nameable(Allocated(v, TIGHT, 6 + k, First(k)), Name(k))
    requires Geometry(TIGHT) && 1 <= First(k) <= MapBits(TIGHT)
      && w == Named(Allocated(v, TIGHT, 6 + k, First(k)), 6 + k, Name(k))
    ensures |w.recs| == NR_RECORDS && w.recs[OLD] == v.recs[OLD]
  {
    hide FindNr, Enter, Taken, First, Name;
  }

  /** A run from `x0` of short creations, each closed at once. */
  ghost predicate Progress(x0: State, run: seq<State>, cs: seq<Change>, k: nat) {
    && FileSystemRuns.Run(run, cs, TIGHT) && run[0] == x0 && SparesUpTo(run, cs, |cs|)
    && (forall c :: c in cs ==> c.Creating? || c.Closing?)
    && var x := run[|cs|]; Sound(x, TIGHT) && Idle(x) && Filled(x.v, k) && Listed(x.v, k)
  }

  lemma Another(x0: State, run: seq<State>, cs: seq<Change>, k: nat) returns (run': seq<State>, cs': seq<Change>)
    requires Progress(x0, run, cs, k) && k < FILES
    ensures Progress(x0, run', cs', k + 1)
  {
    hide By, Spares, Sound, Idle, Filled, Listed, SparesUpTo, Nameable, Named, Allocated, Name, KeepsBoot;
    var x := run[|cs|];
    ReadyToCreate(x, k);
    var y, c := CreateNow(x, TIGHT, 6 + k, First(k), Name(k));
    StepOn(x, y, c, k);
    var z := CloseAfter(x, y, c, map[], k);
    RunOn(run, cs, TIGHT, c, y);
    RunOn(run + [y], cs + [c], TIGHT, Closing(0), z);
    run', cs' := run + [y] + [z], cs + [c] + [Closing(0)];
    assert run'[|cs'|] == z && run'[0] == x0;
  }

  lemma StepOn(x: State, y: State, c: Change, k: nat)
    requires Sound(x, TIGHT) && Filled(x.v, k) && Listed(x.v, k) && k < FILES && By(x, c, y, TIGHT)
    requires c.Creating? && c.name == Name(k) && Creatable(x, TIGHT, 6 + k, First(k), Name(k))
    requires Nameable(Allocated(x.v, TIGHT, 6 + k, First(k)), Name(k))
    requires y.v == Named(Allocated(x.v, TIGHT, 6 + k, First(k)), 6 + k, Name(k))
    ensures Spares(x, c) && Sound(y, TIGHT) && Filled(y.v, k + 1) && Listed(y.v, k + 1)
  {
    hide Sound, Idle, Name, Taken, First, Named, Allocated, Listed, Filled, FirstFit, PathInode;
    assert Nameable(x.v, Name(k)) by { NameableNow(x, c, y); }
    ShortSpares(x, c);
    ChangeSoundIff(x, c, y, TIGHT);
    FilledNext(x.v, y.v, k, Name(k));
    ListedNext(x.v, y.v, k);
  }

  lemma MadeListed(v: Vol)
    requires MadeVol(v, TIGHT) && HeldBefore(v)
    ensures Listed(v, 0)
  {
    hide InitialName, Pad;
    forall j | 5 <= j < OLD ensures v.slots[j] == EMPTY {
      if j < OLD - 1 { assert v.slots[j] == InitialSlot(j); }
    }
    assert forall j :: 0 <= j < 5 ==> v.slots[j] == InitialSlot(j);
  }

  lemma {:induction false} Fill(x0: State, k: nat) returns (run: seq<State>, cs: seq<Change>)
    requires Sound(x0, TIGHT) && Idle(x0) && MadeVol(x0.v, TIGHT) && HeldBefore(x0.v) && k <= FILES
    ensures Progress(x0, run, cs, k)
  {
    hide Sound, Idle, Filled, By, Listed, HeldBefore, MadeVol;
    if k == 0 {
      MadeFilled(x0.v);
      MadeListed(x0.v);
      run, cs := [x0], [];
    } else {
      run, cs := Fill(x0, k - 1);
      run, cs := Another(x0, run, cs, k - 1);
    }
  }

  // ---------------------------------------------------------------- the old name

  /** The old name leads to a number that is not in use and to a record that can be opened. */
  lemma OldLeads(v: Vol)
    requires Filled(v, FILES) && Listed(v, FILES)
    ensures DirShape(v) && PathInode(v, LONG) == OLD + 1 && !InUse(v, OLD + 1) && !Leads(v, LONG)
  {
    hide Pad, Name, Stripped, FindName, Listed, Filled, LONG;
    LongFacts();
    OldSlot(v);
    assert Probed(OLD) == OLD + 1;
    var s := v.slots[..OLD + 1];
    forall j | 0 <= j < OLD ensures s[j].name != LONG { NotLong(v, j); }
    assert s[OLD].name == LONG;
    assert FindName(s, LONG) == OLD;
  }

  lemma OldSlot(v: Vol)
    requires Filled(v, FILES) && Listed(v, FILES)
    ensures DirShape(v) && Entries(v) == OLD && v.slots[OLD] == Slot(OLD + 1, LONG) && !InUse(v, OLD + 1)
  {
  }

  lemma NotLong(v: Vol, j: nat)
    requires Listed(v, FILES) && j < OLD
    ensures v.slots[j].name != LONG
  {
    hide Pad, Name, Stripped, InitialName;
    if j < 5 {
      BootBytes();
    } else {
      NamesApart(j - 5, if j == 5 then 1 else 0);
    }
  }

  lemma OpenNow(x: State) returns (y: State, c: Change)
    requires Sound(x, TIGHT) && Idle(x) && DirShape(x.v) && PathInode(x.v, LONG) == OLD + 1
      && x.v.recs[OLD].mode == I_REGULAR
    ensures By(x, c, y, TIGHT) && c.Opening? && c.path == LONG
  {
    hide Consistent, CachedFrom, FreeFrom, EntryFor, PathInode, Inv;
    IdleTables(x, TIGHT);
    var t := Tab(x);
    var u := Connect(Acquire(t, OLD + 1), 0, 0, 1, O_RDWR);
    y := StateWith(x.v, u);
    c := Opening(LONG, 0, 0, 1, O_RDWR);
    assert Tab(y) == u;
  }

  /** From the state in which `InitFs` leaves a device with such contents: 28 files are created and closed, and the
      old name is opened. Every state is sound but the last, in which an i-node in memory is not in use. */
  lemma StaleOpens(x0: State) returns (run: seq<State>, cs: seq<Change>)
    requires Sound(x0, TIGHT) && Idle(x0) && MadeVol(x0.v, TIGHT) && HeldBefore(x0.v)
    ensures FileSystemRuns.Run(run, cs, TIGHT) && run[0] == x0 && |cs| > 0 && SoundUpTo(run, TIGHT, |cs| - 1)
    ensures !Sound(run[|cs|], TIGHT) && cs[|cs| - 1].Opening? && cs[|cs| - 1].path == LONG
    ensures forall i :: 0 <= i < |cs| - 1 ==> cs[i].Creating? || cs[i].Closing?
  {
    hide Sound, Idle, MadeVol, By, SparesUpTo, Spares, KeepsBoot, Filled, Listed;
    run, cs := Fill(x0, FILES);
    var x := run[|cs|];
    OldLeads(x.v);
    assert x.v.recs[OLD].mode == I_REGULAR by { StillHeld(x.v); }
    var y, c := OpenNow(x);
    ChangeSoundIff(x, c, y, TIGHT);
    assert !Spares(x, c) by { NotSpared(x, c); }
    RunSoundIff(run, cs, TIGHT, |cs|);
    RunOn(run, cs, TIGHT, c, y);
    assert forall i :: 0 <= i <= |cs| ==> (run + [y])[i] == run[i];
    assert forall i :: 0 <= i < |cs| ==> cs[i] in cs;
    run, cs := run + [y], cs + [c];
  }

  lemma StillHeld(v: Vol)
    requires Listed(v, FILES)
    ensures |v.recs| == NR_RECORDS && v.recs[OLD].mode == I_REGULAR
  {
  }

  lemma NotSpared(x: State, c: Change)
    requires c.Opening? && !Leads(x.v, c.path)
    ensures !Spares(x, c)
  {
  }
}
