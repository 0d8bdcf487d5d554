/** Whole runs of fork, exit and wait. */
module LifecycleRuns {
  import opened Const
  import opened Lifecycle
  import opened LifecycleSafety

  datatype Event = Fork(pid: int) | Exit(pid: int, status: int) | Wait(pid: int)

  /** Who calls is alive and does not wait; natives do not exit. */
  predicate Enabled(w: World, e: Event) {
    && IsPid(e.pid) && Alive(FlagsOf(w, e.pid)) && Waiting !in FlagsOf(w, e.pid) && |w.procs| == NR_SLOTS
    && (e.Exit? ==> e.pid >= NR_NATIVES && IsPid(w.procs[e.pid].parent))
  }

  function Step(w: World, e: Event, line: Line135): (r: World)
    requires Enabled(w, e)
    ensures |r.procs| == NR_SLOTS
  {
    match e
    case Fork(pid) => var c := FirstFree(w, 0); if NR_NATIVES <= c < NR_SLOTS then Forked(w, pid, c) else w
    case Exit(pid, status) => Exited(w, pid, status, line)
    case Wait(pid) => Waited(w, pid)
  }

  /** Every event of the run is enabled when its turn comes. */
  predicate Admissible(es: seq<Event>, line: Line135)
    decreases |es|, 0
  {
    es != [] ==> Admissible(es[..|es| - 1], line) && Enabled(After(es[..|es| - 1], line), es[|es| - 1])
  }

  function After(es: seq<Event>, line: Line135): (w: World)
    requires Admissible(es, line)
    ensures |w.procs| == NR_SLOTS
    decreases |es|, 1
  {
    if es == [] then Boot() else Step(After(es[..|es| - 1], line), es[|es| - 1], line)
  }

  lemma StepKeeps(w: World, e: Event)
    requires Inv(w) && Enabled(w, e)
    ensures Inv(Step(w, e, LikeLine124))
  {
    match e
    case Fork(pid) =>
      var c := FirstFree(w, 0);
      if NR_NATIVES <= c < NR_SLOTS { ForkKeeps(w, pid, c); }
    case Exit(pid, status) => ExitKeeps(w, pid, status);
    case Wait(pid) => WaitKeeps(w, pid);
  }

  /** In every state of every run no parent waits beside a dead child, and the parent links are a forest. */
  lemma {:induction false} RunKeeps(es: seq<Event>)
    requires Admissible(es, LikeLine124)
    ensures Inv(After(es, LikeLine124))
  {
    if es == [] {
      BootInv();
    } else {
      RunKeeps(es[..|es| - 1]);
      StepKeeps(After(es[..|es| - 1], LikeLine124), es[|es| - 1]);
    }
  }

  /** No exit of the run takes the branch of line 135. */
  predicate Spared(es: seq<Event>)
    requires Admissible(es, AsWritten)
  {
    es != [] ==>
      Spared(es[..|es| - 1]) && (es[|es| - 1].Exit? ==> !Spoils(After(es[..|es| - 1], AsWritten), es[|es| - 1].pid))
  }

  /** As long as that is so, the code as written runs like the code with line 135 like line 124. */
  lemma {:induction false} RunAsWritten(es: seq<Event>)
    requires Admissible(es, AsWritten) && Spared(es)
    ensures Admissible(es, LikeLine124) && After(es, AsWritten) == After(es, LikeLine124) && Inv(After(es, AsWritten))
  {
    if es == [] {
      BootInv();
    } else {
      var t, e := es[..|es| - 1], es[|es| - 1];
      RunAsWritten(t);
      StepKeeps(After(t, LikeLine124), e);
      if e.Exit? { ExitKeepsIff(After(t, AsWritten), e.pid, e.status); }
    }
  }

  // ---------------------------------------------------------------- runs in which it goes wrong

  /** The run `es` leads to `w`, by the code as written, without the branch of line 135. */
  ghost predicate LeadsTo(es: seq<Event>, w: World) {
    Admissible(es, AsWritten) && Spared(es) && After(es, AsWritten) == w
  }

  lemma Begin()
    ensures LeadsTo([], Boot())
  {
  }

  lemma More(es: seq<Event>, w: World, e: Event)
    requires LeadsTo(es, w) && Enabled(w, e) && (e.Exit? ==> !Spoils(w, e.pid))
    ensures LeadsTo(es + [e], Step(w, e, AsWritten))
  {
    var fs := es + [e];
    assert fs[..|fs| - 1] == es && fs[|fs| - 1] == e;
  }

  lemma {:induction false} NothingToAdopt(w: World, pid: int, i: nat)
    requires |w.procs| == NR_SLOTS && i <= NR_SLOTS && forall k :: i <= k < NR_SLOTS ==> w.procs[k].parent != pid
    ensures AdoptFrom(w, pid, i, AsWritten) == w
    decreases NR_SLOTS - i
  {
    if i < NR_SLOTS { NothingToAdopt(w, pid, i + 1); }
  }

  /** `pid` forks into the first free slot. */
  lemma Forks(es: seq<Event>, w: World, pid: int, c: int)
    requires LeadsTo(es, w) && Enabled(w, Fork(pid)) && NR_NATIVES <= c < NR_SLOTS
    requires (forall i :: 0 <= i < c ==> w.procs[i].flags != {FreeSlot}) && w.procs[c].flags == {FreeSlot}
    ensures LeadsTo(es + [Fork(pid)], Forked(w, pid, c))
  {
    hide LeadsTo;
    assert FirstFree(w, 0) == c;
    More(es, w, Fork(pid));
  }

  /** `pid` exits without children while nobody waits for it. */
  lemma Leaves(es: seq<Event>, w: World, pid: int)
    requires LeadsTo(es, w) && Enabled(w, Exit(pid, 0)) && Waiting !in w.procs[w.procs[pid].parent].flags
    requires w.procs[pid].parent != pid && forall k :: 0 <= k < NR_SLOTS ==> w.procs[k].parent != pid
    ensures LeadsTo(es + [Exit(pid, 0)], World(
      w.procs[pid := Proc(w.procs[pid].flags + {Hanging}, w.procs[pid].parent, 0)], w.replies))
  {
    hide LeadsTo, AdoptFrom;
    var h := ExitHead(w, pid, 0);
    assert h.procs == w.procs[pid := Proc(w.procs[pid].flags + {Hanging}, w.procs[pid].parent, 0)];
    NothingToAdopt(h, pid, 0);
    More(es, w, Exit(pid, 0));
  }

  /** `pid` waits for a child that is alive, or reaps one that is dead. */
  lemma WaitsFor(es: seq<Event>, w: World, pid: int, c: int)
    requires LeadsTo(es, w) && Enabled(w, Wait(pid)) && IsPid(c) && w.procs[c].parent == pid
    requires forall k :: 0 <= k < NR_SLOTS && k != c ==> !ZombieChild(w, pid, k)
    ensures LeadsTo(es + [Wait(pid)],
      if Hanging in w.procs[c].flags then Cleanup(w, c) else SetFlags(w, pid, w.procs[pid].flags + {Waiting}))
  {
    hide LeadsTo;
    assert Hanging in w.procs[c].flags <==> ZombieChild(w, pid, c);
    More(es, w, Wait(pid));
  }

  /** The boot table after INIT has forked 9 and 9 has forked 10. */
  function Family(i: int): Proc {
    if i < NR_NATIVES then Proc({}, NO_TASK, 0) else if i == 9 then Proc({}, INIT, 0)
    else if i == 10 then Proc({}, 9, 0) else Proc({FreeSlot}, 0, 0)
  }

  lemma FamilyRun() returns (w: World)
    ensures LeadsTo([Fork(5), Fork(9)], w) && w.replies == [] && |w.procs| == NR_SLOTS
    ensures forall i :: 0 <= i < NR_SLOTS ==> w.procs[i] == Family(i)
  {
    hide LeadsTo;
    Begin();
    var b := Boot();
    Forks([], b, 5, 9);
    var w1 := Forked(b, 5, 9);
    assert [] + [Fork(5)] == [Fork(5)];
    Forks([Fork(5)], w1, 9, 10);
    assert [Fork(5)] + [Fork(9)] == [Fork(5), Fork(9)];
    w := Forked(w1, 9, 10);
  }

  /** The branch of line 135 is reached: INIT forks 9, 9 forks 10, 10 forks 11, 11 exits, INIT waits, and 10 exits. */
  lemma SpoilsHappens() returns (es: seq<Event>, w: World)
    ensures LeadsTo(es, w) && Inv(w) && Enabled(w, Exit(10, 0)) && Spoils(w, 10)
    ensures !Inv(Exited(w, 10, 0, AsWritten))
  {
    hide LeadsTo, Inv, Exited;
    var w2 := FamilyRun();
    es := [Fork(5), Fork(9)];
    Forks(es, w2, 10, 11);
    var w3 := Forked(w2, 10, 11);
    es := es + [Fork(10)];
    Leaves(es, w3, 11);
    var w4 := World(w3.procs[11 := Proc({Hanging}, 10, 0)], []);
    assert w3.procs[11].flags + {Hanging} == {Hanging};
    es := es + [Exit(11, 0)];
    WaitsFor(es, w4, 5, 9);
    w := SetFlags(w4, 5, {Waiting});
    assert w4.procs[5].flags + {Waiting} == {Waiting};
    es := es + [Wait(5)];
    assert DeadChild(w, 10, 11);
    LeadsInv(es, w);
    ExitKeepsIff(w, 10, 0);
  }

  lemma LeadsInv(es: seq<Event>, w: World)
    requires LeadsTo(es, w)
    ensures Inv(w)
  {
    RunAsWritten(es);
  }

  /** A stale link is waited on: INIT forks 9, 9 forks 10, 10 exits, and 9 waits twice. The second wait finds the
      link of a free slot and never returns. */
  lemma StaleWaitHappens() returns (es: seq<Event>, w: World)
    ensures LeadsTo(es, w) && Inv(w) && Enabled(w, Wait(9)) && Named(w, 9)
    ensures Stuck(Waited(w, 9), 9)
  {
    hide LeadsTo, Inv, Waited;
    var w2 := FamilyRun();
    es := [Fork(5), Fork(9)];
    Leaves(es, w2, 10);
    var w3 := World(w2.procs[10 := Proc({Hanging}, 9, 0)], []);
    assert w2.procs[10].flags + {Hanging} == {Hanging};
    es := es + [Exit(10, 0)];
    WaitsFor(es, w3, 9, 10);
    w := Cleanup(w3, 10);
    es := es + [Wait(9)];
    assert w.procs[10].parent == 9;
    LeadsInv(es, w);
    StaleWaitSticks(w, 9);
  }

  // ---------------------------------------------------------------- every status is delivered once

  /** The exit statuses handed out. */
  ghost function Delivered(rs: seq<Reply>): multiset<(int, int)> {
    if rs == [] then multiset{}
    else
      var r := rs[|rs| - 1];
      Delivered(rs[..|rs| - 1]) + if r.Reaped? then multiset{(r.pid, r.status)} else multiset{}
  }

  /** The exit status of a dead slot. */
  ghost function KeptAt(w: World, i: nat): multiset<(int, int)>
    requires i < |w.procs|
  {
    if Dead(w.procs[i].flags) then multiset{(i, w.procs[i].status)} else multiset{}
  }

  /** The exit statuses of the dead among the first `n` slots. */
  ghost function Kept(w: World, n: nat): multiset<(int, int)>
    requires n <= |w.procs|
  {
    if n == 0 then multiset{} else Kept(w, n - 1) + KeptAt(w, n - 1)
  }

  /** The exit statuses of a run. */
  ghost function Exits(es: seq<Event>): multiset<(int, int)> {
    if es == [] then multiset{}
    else
      var e := es[|es| - 1];
      Exits(es[..|es| - 1]) + if e.Exit? then multiset{(e.pid, e.status)} else multiset{}
  }

  ghost function Ledger(w: World): multiset<(int, int)> { Delivered(w.replies) + Kept(w, |w.procs|) }

  /** The same dead, with the same statuses. */
  ghost predicate SameDead(w: World, w': World) {
    |w.procs| == |w'.procs| && forall i :: 0 <= i < |w.procs| ==>
      && (Dead(SlotOf(w', i).flags) <==> Dead(SlotOf(w, i).flags))
      && (Dead(SlotOf(w, i).flags) ==> SlotOf(w', i).status == SlotOf(w, i).status)
  }

  lemma {:induction false} KeptSame(w: World, w': World, n: nat)
    requires SameDead(w, w') && n <= |w.procs|
    ensures Kept(w', n) == Kept(w, n)
  {
    if n > 0 {
      KeptSame(w, w', n - 1);
      assert SlotOf(w, n - 1) == w.procs[n - 1] && SlotOf(w', n - 1) == w'.procs[n - 1];
    }
  }

  /** Slot `c` is dead in `w` and not in `w'`; the others are the same. */
  lemma {:induction false} KeptLess(w: World, w': World, c: int, n: nat)
    requires |w.procs| == |w'.procs| && 0 <= c < n <= |w.procs|
    requires Dead(w.procs[c].flags) && !Dead(w'.procs[c].flags)
    requires forall i :: 0 <= i < |w.procs| && i != c ==> SlotOf(w', i) == SlotOf(w, i)
    ensures Kept(w, n) == Kept(w', n) + multiset{(c, w.procs[c].status)}
  {
    hide Kept, KeptAt;
    if n - 1 == c {
      KeptBelow(w, w', c);
      KeptTop(w, w', c);
    } else {
      KeptLess(w, w', c, n - 1);
      KeptLessStep(w, w', c, n);
    }
  }

  lemma KeptTop(w: World, w': World, c: nat)
    requires |w.procs| == |w'.procs| && c < |w.procs| && Kept(w', c) == Kept(w, c)
    requires Dead(w.procs[c].flags) && !Dead(w'.procs[c].flags)
    ensures Kept(w, c + 1) == Kept(w', c + 1) + multiset{(c as int, w.procs[c].status)}
  {
    var a, x := Kept(w, c), multiset{(c as int, w.procs[c].status)};
    assert KeptAt(w, c) == x && KeptAt(w', c) == multiset{};
    Last(a, x);
  }

  lemma Last(a: multiset<(int, int)>, x: multiset<(int, int)>)
    ensures a + x == (a + multiset{}) + x
  {
  }

  lemma KeptLessStep(w: World, w': World, c: int, n: nat)
    requires |w.procs| == |w'.procs| && 0 <= c < n - 1 < |w.procs| && SlotOf(w', n - 1) == SlotOf(w, n - 1)
    requires Kept(w, n - 1) == Kept(w', n - 1) + multiset{(c, w.procs[c].status)}
    ensures Kept(w, n) == Kept(w', n) + multiset{(c, w.procs[c].status)}
  {
    hide Dead, KeptAt;
    KeptAtSame(w, w', n - 1);
    Carry(Kept(w, n - 1), Kept(w', n - 1), multiset{(c, w.procs[c].status)}, KeptAt(w, n - 1));
  }

  lemma KeptAtSame(w: World, w': World, i: nat)
    requires i < |w.procs| && i < |w'.procs| && SlotOf(w', i) == SlotOf(w, i)
    ensures KeptAt(w', i) == KeptAt(w, i)
  {
  }

  lemma Carry(a: multiset<(int, int)>, b: multiset<(int, int)>, s: multiset<(int, int)>, x: multiset<(int, int)>)
    requires a == b + s
    ensures a + x == (b + x) + s
  {
  }

  lemma {:induction false} KeptBelow(w: World, w': World, n: nat)
    requires n <= |w.procs| && |w.procs| == |w'.procs|
    requires forall i :: 0 <= i < n ==> SlotOf(w', i) == SlotOf(w, i)
    ensures Kept(w', n) == Kept(w, n)
  {
    if n > 0 {
      KeptBelow(w, w', n - 1);
      assert SlotOf(w', n - 1) == SlotOf(w, n - 1);
    }
  }

  lemma DeliveredMore(rs: seq<Reply>, r: Reply)
    ensures Delivered(rs + [r]) == Delivered(rs) + if r.Reaped? then multiset{(r.pid, r.status)} else multiset{}
  {
    assert (rs + [r])[..|rs|] == rs;
  }

  /** Cleaning a dead process up delivers its status. */
  lemma CleanLedger(w: World, i: int)
    requires 0 <= i < |w.procs| && Dead(w.procs[i].flags)
    ensures Ledger(Cleanup(w, i)) == Ledger(w)
  {
    hide Kept, KeptAt, Delivered;
    var x := multiset{(i, w.procs[i].status)};
    DeliveredMore(w.replies, Reaped(w.procs[i].parent, i, w.procs[i].status));
    KeptLess(w, Cleanup(w, i), i, |w.procs|);
    Handover(Delivered(w.replies), Kept(Cleanup(w, i), |w.procs|), x);
  }

  lemma Handover(a: multiset<(int, int)>, b: multiset<(int, int)>, x: multiset<(int, int)>)
    ensures (a + x) + b == a + (b + x)
  {
  }

  lemma SameLedger(w: World, w': World)
    requires SameDead(w, w') && w'.replies == w.replies
    ensures Ledger(w') == Ledger(w)
  {
    KeptSame(w, w', |w.procs|);
  }

  lemma WaitLedger(w: World, pid: int)
    requires IsPid(pid) && |w.procs| == NR_SLOTS
    ensures Ledger(Waited(w, pid)) == Ledger(w)
  {
    var z := FirstZombie(w, pid, 0);
    if z < |w.procs| {
      CleanLedger(w, z);
    } else if Named(w, pid) {
      SameLedger(w, Waited(w, pid));
    } else {
      DeliveredMore(w.replies, NoChild(pid));
      KeptSame(w, Waited(w, pid), |w.procs|);
    }
  }

  lemma AdoptLedger(w: World, pid: int, i: int)
    requires 0 <= i < NR_SLOTS == |w.procs| && Alive(FlagsOf(w, INIT))
    ensures Ledger(AdoptOne(w, pid, i, LikeLine124)) == Ledger(w)
      && Alive(FlagsOf(AdoptOne(w, pid, i, LikeLine124), INIT))
  {
    hide Ledger;
    var w' := AdoptOne(w, pid, i, LikeLine124);
    if w.procs[i].parent == pid {
      var w1 := w.(procs := w.procs[i := w.procs[i].(parent := INIT)]);
      SameLedger(w, w1);
      if Waiting in w1.procs[INIT].flags && Hanging in w1.procs[i].flags {
        var w2 := SetFlags(w1, INIT, w1.procs[INIT].flags - {Waiting});
        SameLedger(w1, w2);
        CleanLedger(w2, i);
        assert w' == Cleanup(w2, i);
      }
    }
  }

  lemma {:induction false} AdoptAllLedger(w: World, pid: int, i: nat)
    requires i <= NR_SLOTS == |w.procs| && Alive(FlagsOf(w, INIT))
    ensures Ledger(AdoptFrom(w, pid, i, LikeLine124)) == Ledger(w)
    decreases NR_SLOTS - i
  {
    if i < NR_SLOTS {
      AdoptLedger(w, pid, i);
      AdoptAllLedger(AdoptOne(w, pid, i, LikeLine124), pid, i + 1);
    }
  }

  lemma ExitLedger(w: World, pid: int, status: int)
    requires Inv(w) && MayExit(w, pid) && IsPid(w.procs[pid].parent)
    ensures Ledger(Exited(w, pid, status, LikeLine124)) == Ledger(w) + multiset{(pid, status)}
  {
    hide Delivered, Kept;
    ParentRuns(w, pid);
    HeadFacts(w, pid, status);
    var h, p := ExitHead(w, pid, status), w.procs[pid].parent;
    var w1 := w.(procs := w.procs[pid := w.procs[pid].(status := status)]);
    SameLedger(w, w1);
    if Waiting in w1.procs[p].flags {
      var w2 := SetFlags(w1, p, w1.procs[p].flags - {Waiting});
      SameLedger(w1, w2);
      DeliveredMore(w2.replies, Reaped(p, pid, status));
      KeptSame(w2, h, NR_SLOTS);
    } else {
      KeptLess(h, w1, pid, NR_SLOTS);
    }
    AdoptAllLedger(h, pid, 0);
  }

  /** Over every run, the statuses of the exits are those delivered and those of the dead not yet reaped:
      each goes to exactly one wait, or is still kept. */
  lemma {:induction false} RunLedger(es: seq<Event>)
    requires Admissible(es, LikeLine124)
    ensures Exits(es) == Ledger(After(es, LikeLine124))
  {
    if es == [] {
      BootLedger(NR_SLOTS);
    } else {
      var t, e := es[..|es| - 1], es[|es| - 1];
      var w := After(t, LikeLine124);
      RunLedger(t);
      RunKeeps(t);
      match e
      case Fork(pid) => ForkLedger(w, pid);
      case Exit(pid, status) => ExitLedger(w, pid, status);
      case Wait(pid) => WaitLedger(w, pid);
    }
  }

  lemma {:induction false} BootLedger(n: nat)
    requires n <= NR_SLOTS
    ensures Kept(Boot(), n) == multiset{}
  {
    if n > 0 {
      BootLedger(n - 1);
    }
  }

  lemma ForkLedger(w: World, pid: int)
    requires Inv(w) && Enabled(w, Fork(pid))
    ensures Ledger(Step(w, Fork(pid), LikeLine124)) == Ledger(w)
  {
    var c := FirstFree(w, 0);
    if NR_NATIVES <= c < NR_SLOTS {
      SameLedger(w, Forked(w, pid, c));
    }
  }

  // ---------------------------------------------------------------- every wait is answered at most once

  ghost function Waits(es: seq<Event>, pid: int): nat {
    if es == [] then 0 else Waits(es[..|es| - 1], pid) + if es[|es| - 1] == Wait(pid) then 1 else 0
  }

  ghost function Answers(rs: seq<Reply>, pid: int): nat {
    if rs == [] then 0 else Answers(rs[..|rs| - 1], pid) + if rs[|rs| - 1].to == pid then 1 else 0
  }

  /** Answers to `pid`, and the one it waits for. */
  ghost function Owed(w: World, pid: int): int { Answers(w.replies, pid) + if Waiting in FlagsOf(w, pid) then 1 else 0 }

  lemma AnswersMore(rs: seq<Reply>, r: Reply, pid: int)
    ensures Answers(rs + [r], pid) == Answers(rs, pid) + if r.to == pid then 1 else 0
  {
    assert (rs + [r])[..|rs|] == rs;
  }

  lemma AdoptOneOwed(w: World, pid: int, i: int, q: int)
    requires 0 <= i < NR_SLOTS == |w.procs| && forall k :: 0 <= k < NR_SLOTS ==> KindOk(k, SlotOf(w, k).flags)
    ensures var w' := AdoptOne(w, pid, i, LikeLine124);
      Owed(w', q) == Owed(w, q) && forall k :: 0 <= k < NR_SLOTS ==> KindOk(k, SlotOf(w', k).flags)
  {
    hide Answers;
    var w' := AdoptOne(w, pid, i, LikeLine124);
    assert KindOk(i, SlotOf(w, i).flags) && KindOk(INIT, SlotOf(w, INIT).flags);
    AnswersMore(w.replies, Reaped(INIT, i, w.procs[i].status), q);
    if w.procs[i].parent == pid && Waiting in w.procs[INIT].flags && Hanging in w.procs[i].flags {
      assert i != INIT && Waiting !in w.procs[i].flags;
      assert w'.procs[INIT].flags == w.procs[INIT].flags - {Waiting} && w'.procs[i].flags == {FreeSlot};
      assert w'.replies == w.replies + [Reaped(INIT, i, w.procs[i].status)];
      if q != i && q != INIT { assert FlagsOf(w', q) == FlagsOf(w, q); }
    } else {
      assert w'.replies == w.replies && FlagsOf(w', q) == FlagsOf(w, q);
    }
    AdoptOneKinds(w, pid, i);
  }

  lemma AdoptOneKinds(w: World, pid: int, i: int)
    requires 0 <= i < NR_SLOTS == |w.procs| && forall k :: 0 <= k < NR_SLOTS ==> KindOk(k, SlotOf(w, k).flags)
    ensures forall k :: 0 <= k < NR_SLOTS ==> KindOk(k, SlotOf(AdoptOne(w, pid, i, LikeLine124), k).flags)
  {
    var w' := AdoptOne(w, pid, i, LikeLine124);
    assert KindOk(i, SlotOf(w, i).flags) && KindOk(INIT, SlotOf(w, INIT).flags);
    forall k | 0 <= k < NR_SLOTS ensures KindOk(k, SlotOf(w', k).flags) { assert KindOk(k, SlotOf(w, k).flags); }
  }

  lemma {:induction false} AdoptOwed(w: World, pid: int, i: nat, q: int)
    requires i <= NR_SLOTS == |w.procs| && forall k :: 0 <= k < NR_SLOTS ==> KindOk(k, SlotOf(w, k).flags)
    ensures Owed(AdoptFrom(w, pid, i, LikeLine124), q) == Owed(w, q)
    decreases NR_SLOTS - i
  {
    if i < NR_SLOTS {
      var w' := AdoptOne(w, pid, i, LikeLine124);
      AdoptOneOwed(w, pid, i, q);
      AdoptOwed(w', pid, i + 1, q);
    }
  }

  lemma ExitOwed(w: World, pid: int, status: int, q: int)
    requires Inv(w) && Enabled(w, Exit(pid, status)) && IsPid(q)
    ensures Owed(Exited(w, pid, status, LikeLine124), q) == Owed(w, q)
  {
    ParentRuns(w, pid);
    HeadLeaves(w, pid, status);
    var h, p := ExitHead(w, pid, status), w.procs[pid].parent;
    AdoptOwed(h, pid, 0, q);
    AnswersMore(w.replies, Reaped(p, pid, status), q);
    assert q != pid && q != p ==> FlagsOf(h, q) == FlagsOf(w, q);
  }

  lemma WaitOwed(w: World, pid: int, q: int)
    requires Inv(w) && Enabled(w, Wait(pid)) && IsPid(q)
    ensures Owed(Waited(w, pid), q) == Owed(w, q) + if q == pid then 1 else 0
  {
    var z := FirstZombie(w, pid, 0);
    if z < |w.procs| {
      assert KindOk(z, SlotOf(w, z).flags);
      AnswersMore(w.replies, Reaped(pid, z, w.procs[z].status), q);
    } else {
      AnswersMore(w.replies, NoChild(pid), q);
    }
  }

  lemma StepOwed(w: World, e: Event, q: int)
    requires Inv(w) && Enabled(w, e) && IsPid(q)
    ensures Owed(Step(w, e, LikeLine124), q) == Owed(w, q) + if e == Wait(q) then 1 else 0
  {
    match e
    case Fork(pid) =>
      var c := FirstFree(w, 0);
      if c < NR_SLOTS { assert KindOk(c, SlotOf(w, c).flags); }
    case Exit(pid, status) => ExitOwed(w, pid, status, q);
    case Wait(pid) => WaitOwed(w, pid, q);
  }

  /** Over every run, the waits of a process are those answered, and the last one while it waits. */
  lemma {:induction false} RunOwed(es: seq<Event>, q: int)
    requires Admissible(es, LikeLine124) && IsPid(q)
    ensures Waits(es, q) == Owed(After(es, LikeLine124), q)
  {
    if es != [] {
      RunOwed(es[..|es| - 1], q);
      RunKeeps(es[..|es| - 1]);
      StepOwed(After(es[..|es| - 1], LikeLine124), es[|es| - 1], q);
    }
  }

  // ---------------------------------------------------------------- stale parent links

  /** After an exit nothing names the process that left, in use or not, so its slot can be reused. */
  lemma {:induction false} NobodyLeft(w: World, pid: int, i: nat, line: Line135)
    requires i <= NR_SLOTS == |w.procs| && pid != INIT && forall k :: 0 <= k < i ==> SlotOf(w, k).parent != pid
    ensures !Named(AdoptFrom(w, pid, i, line), pid)
    decreases NR_SLOTS - i
  {
    if i < NR_SLOTS {
      var w' := AdoptOne(w, pid, i, line);
      assert forall k :: 0 <= k < NR_SLOTS && k != i ==> SlotOf(w', k).parent == SlotOf(w, k).parent;
      NobodyLeft(w', pid, i + 1, line);
    } else {
      assert forall k :: 0 <= k < NR_SLOTS ==> w.procs[k] == SlotOf(w, k);
    }
  }

  /** `do_wait` says that there is no child exactly when no slot names the caller, not even a free one. */
  lemma NoChildIff(w: World, pid: int)
    requires IsPid(pid) && |w.procs| == NR_SLOTS
    ensures Waited(w, pid).replies == w.replies + [NoChild(pid)] <==> !Named(w, pid)
  {
    var z := FirstZombie(w, pid, 0);
    if z < |w.procs| {
      assert w.procs[z].parent == pid;
      assert (w.replies + [NoChild(pid)])[|w.replies|] == NoChild(pid);
      assert Cleanup(w, z).replies[|w.replies|].Reaped?;
    } else if Named(w, pid) {
      assert |Waited(w, pid).replies| == |w.replies|;
    }
  }

  /** `pid` waits, and no slot in use leads to it. */
  ghost predicate Stuck(w: World, pid: int) {
    && |w.procs| == NR_SLOTS && IsPid(pid) && pid != INIT && Waiting in FlagsOf(w, pid)
    && forall i :: 0 <= i < NR_SLOTS && !Free(SlotOf(w, i).flags) ==> SlotOf(w, i).parent != pid
  }

  lemma {:induction false} NoZombie(w: World, pid: int, i: nat)
    requires Kinds(w) && i <= NR_SLOTS
    requires forall k :: 0 <= k < NR_SLOTS && !Free(SlotOf(w, k).flags) ==> SlotOf(w, k).parent != pid
    ensures FirstZombie(w, pid, i) == |w.procs|
    decreases NR_SLOTS - i
  {
    if i < NR_SLOTS {
      assert KindOk(i, SlotOf(w, i).flags);
      NoZombie(w, pid, i + 1);
    }
  }

  /** A wait with only free slots naming the caller leaves it stuck. */
  lemma StaleWaitSticks(w: World, pid: int)
    requires Inv(w) && Enabled(w, Wait(pid)) && pid != INIT && Named(w, pid)
    requires forall i :: 0 <= i < NR_SLOTS && !Free(SlotOf(w, i).flags) ==> SlotOf(w, i).parent != pid
    ensures Stuck(Waited(w, pid), pid)
  {
    NoZombie(w, pid, 0);
    assert forall k :: 0 <= k < NR_SLOTS ==>
      SlotOf(Waited(w, pid), k) == if k == pid
        then SlotOf(w, k).(flags := SlotOf(w, k).flags + {Waiting}) else SlotOf(w, k);
  }

  lemma {:induction false} AdoptStuck(w: World, pid: int, i: nat, q: int)
    requires Stuck(w, q) && i <= NR_SLOTS && pid != q && Kinds(w)
    ensures Stuck(AdoptFrom(w, pid, i, LikeLine124), q)
    decreases NR_SLOTS - i
  {
    if i < NR_SLOTS {
      var w' := AdoptOne(w, pid, i, LikeLine124);
      assert KindOk(q, SlotOf(w, q).flags) && KindOk(INIT, SlotOf(w, INIT).flags) && KindOk(i, SlotOf(w, i).flags);
      assert forall k :: 0 <= k < NR_SLOTS && k != i && k != INIT ==> SlotOf(w', k) == SlotOf(w, k);
      assert SlotOf(w', INIT).parent == SlotOf(w, INIT).parent || SlotOf(w', INIT).parent == INIT;
      AdoptStuck(w', pid, i + 1, q);
    }
  }

  /** And it stays so: such a wait never returns. */
  lemma StuckForGood(w: World, e: Event, q: int)
    requires Inv(w) && Enabled(w, e) && Stuck(w, q)
    ensures Stuck(Step(w, e, LikeLine124), q)
  {
    match e
    case Fork(pid) =>
      var c := FirstFree(w, 0);
      if c < NR_SLOTS {
        assert SlotOf(w, c).flags == {FreeSlot} && KindOk(c, SlotOf(w, c).flags);
        var w' := Forked(w, pid, c);
        assert forall k :: 0 <= k < NR_SLOTS ==>
          SlotOf(w', k) == if k == c then SlotOf(w, pid).(parent := pid) else SlotOf(w, k);
      }
    case Exit(pid, status) =>
      ParentRuns(w, pid);
      HeadLeaves(w, pid, status);
      var h, p := ExitHead(w, pid, status), w.procs[pid].parent;
      assert SlotOf(w, pid).parent == p && p != q;
      assert KindOk(p, SlotOf(w, p).flags);
      assert forall k :: 0 <= k < NR_SLOTS && k != pid && k != p ==> SlotOf(h, k) == SlotOf(w, k);
      assert SlotOf(h, p).parent == SlotOf(w, p).parent && SlotOf(h, pid).parent == p;
      AdoptStuck(h, pid, 0, q);
    case Wait(pid) =>
      var w' := Waited(w, pid);
      var z := FirstZombie(w, pid, 0);
      if z < |w.procs| { assert KindOk(z, SlotOf(w, z).flags) && KindOk(q, SlotOf(w, q).flags); }
      assert forall k :: 0 <= k < NR_SLOTS ==> SlotOf(w', k).parent == SlotOf(w, k).parent;
      assert forall k :: 0 <= k < NR_SLOTS && k != z && k != pid ==> SlotOf(w', k) == SlotOf(w, k);
  }
}
