/** What fork, exit and wait keep: no parent waits beside a dead child, the parent links are a forest, every
    exit status is delivered once, every wait is answered at most once. With line 135 as it is written this
    holds exactly until INIT, while waiting, adopts a dead child. */
module LifecycleSafety {
  import opened Const
  import opened Lifecycle

  function SlotOf(w: World, i: int): Proc
    requires 0 <= i < |w.procs|
  {
    w.procs[i]
  }

  /** The flags of a process, none outside the table. */
  function FlagsOf(w: World, i: int): Flags { if 0 <= i < |w.procs| then w.procs[i].flags else {} }

  predicate Free(f: Flags) { FreeSlot in f }
  predicate Dead(f: Flags) { Hanging in f }
  predicate Alive(f: Flags) { FreeSlot !in f && Hanging !in f }

  /** Native processes are alive for ever; a slot is free, dead or alive, and only the living wait. */
  ghost predicate Kinds(w: World) {
    && |w.procs| == NR_SLOTS
    && forall i :: 0 <= i < NR_SLOTS ==> KindOk(i, SlotOf(w, i).flags)
  }

  predicate KindOk(i: int, f: Flags) {
    (i < NR_NATIVES ==> Alive(f)) && (Free(f) ==> f == {FreeSlot}) && (Waiting in f ==> Alive(f))
  }

  /** No process waits while a child of it is dead. */
  ghost predicate NoDelay(w: World) {
    forall i :: 0 <= i < |w.procs| && Dead(SlotOf(w, i).flags) ==> Waiting !in FlagsOf(w, SlotOf(w, i).parent)
  }

  /** Links lead to the living and down in rank: a forest with the native processes as roots. While process
      `gone` is being taken out of it, the slots from `from` on may still lead to it. */
  ghost predicate ForestBut(w: World, rank: seq<nat>, gone: int, from: int) {
    && |rank| == |w.procs| == NR_SLOTS
    && forall i :: NR_NATIVES <= i < NR_SLOTS && !Free(SlotOf(w, i).flags) ==>
         && IsPid(SlotOf(w, i).parent) && rank[SlotOf(w, i).parent] < rank[i]
         && (Alive(FlagsOf(w, SlotOf(w, i).parent)) || (SlotOf(w, i).parent == gone && from <= i))
  }

  ghost predicate Forest(w: World, rank: seq<nat>) { ForestBut(w, rank, -1, NR_SLOTS) }

  ghost predicate Inv(w: World) { Kinds(w) && NoDelay(w) && exists rank :: Forest(w, rank) }

  lemma BootInv()
    ensures Inv(Boot())
  {
    assert Forest(Boot(), seq(NR_SLOTS, i => 0));
  }

  // ---------------------------------------------------------------- fork and wait

  lemma ForkKeeps(w: World, pid: int, child: int)
    requires Inv(w) && IsPid(pid) && Alive(FlagsOf(w, pid)) && Waiting !in FlagsOf(w, pid)
    requires NR_NATIVES <= child < NR_SLOTS && Free(FlagsOf(w, child))
    ensures Inv(Forked(w, pid, child))
  {
    var rank :| Forest(w, rank);
    var w' := Forked(w, pid, child);
    assert forall i :: 0 <= i < NR_SLOTS ==>
      SlotOf(w', i) == if i == child then SlotOf(w, pid).(parent := pid) else SlotOf(w, i);
    assert Forest(w', rank[child := rank[pid] + 1]);
  }

  lemma CleanKeeps(w: World, i: int, rank: seq<nat>, gone: int, from: int)
    requires Kinds(w) && NoDelay(w) && ForestBut(w, rank, gone, from) && IsPid(i) && Dead(FlagsOf(w, i))
    ensures Kinds(Cleanup(w, i)) && NoDelay(Cleanup(w, i)) && ForestBut(Cleanup(w, i), rank, gone, from)
  {
    var w' := Cleanup(w, i);
    assert KindOk(i, SlotOf(w, i).flags);
    assert forall k :: 0 <= k < NR_SLOTS ==>
      SlotOf(w', k) == if k == i then SlotOf(w, i).(flags := {FreeSlot}) else SlotOf(w, k);
  }

  lemma WaitKeeps(w: World, pid: int)
    requires Inv(w) && IsPid(pid) && Alive(FlagsOf(w, pid))
    ensures Inv(Waited(w, pid))
  {
    var rank :| Forest(w, rank);
    var z, w' := FirstZombie(w, pid, 0), Waited(w, pid);
    if z < |w.procs| {
      CleanKeeps(w, z, rank, -1, NR_SLOTS);
    } else {
      assert forall k :: 0 <= k < NR_SLOTS ==> SlotOf(w', k) == SlotOf(w, k).(flags := SlotOf(w', k).flags);
      assert forall k :: 0 <= k < NR_SLOTS && k != pid ==> SlotOf(w', k) == SlotOf(w, k);
      forall i | 0 <= i < NR_SLOTS && Dead(SlotOf(w', i).flags) ensures Waiting !in FlagsOf(w', SlotOf(w', i).parent) {
        assert !ZombieChild(w, pid, i);
      }
    }
    assert Forest(w', rank);
  }

  // ---------------------------------------------------------------- exit

  /** In the middle of an exit: as always, but for the slots that still lead to `pid`. */
  ghost predicate Leaving(w: World, pid: int, i: int) {
    && Kinds(w) && NoDelay(w) && NR_NATIVES <= pid < NR_SLOTS && !Alive(FlagsOf(w, pid))
    && exists rank :: ForestBut(w, rank, pid, i)
  }

  /** The process may exit: it is no native, and it runs. */
  predicate MayExit(w: World, pid: int) {
    NR_NATIVES <= pid < NR_SLOTS && Alive(FlagsOf(w, pid)) && Waiting !in FlagsOf(w, pid)
  }

  lemma ParentRuns(w: World, pid: int)
    requires Inv(w) && MayExit(w, pid)
    ensures IsPid(w.procs[pid].parent) && w.procs[pid].parent != pid && Alive(FlagsOf(w, w.procs[pid].parent))
  {
    var rank :| Forest(w, rank);
    assert SlotOf(w, pid) == w.procs[pid];
  }

  lemma HeadLeaves(w: World, pid: int, status: int)
    requires Inv(w) && MayExit(w, pid)
    ensures IsPid(w.procs[pid].parent) && Leaving(ExitHead(w, pid, status), pid, 0)
  {
    ParentRuns(w, pid);
    var rank :| Forest(w, rank);
    var w', p := ExitHead(w, pid, status), w.procs[pid].parent;
    assert KindOk(p, SlotOf(w, p).flags);
    assert forall i :: 0 <= i < NR_SLOTS && i != pid && i != p ==> SlotOf(w', i) == SlotOf(w, i);
    assert SlotOf(w', p) == SlotOf(w, p).(flags := SlotOf(w, p).flags - {Waiting});
    assert SlotOf(w', pid).parent == p;
    forall i | NR_NATIVES <= i < NR_SLOTS && !Free(SlotOf(w', i).flags)
      ensures IsPid(SlotOf(w', i).parent) && rank[SlotOf(w', i).parent] < rank[i]
      ensures Alive(FlagsOf(w', SlotOf(w', i).parent)) || SlotOf(w', i).parent == pid
    {
      var q := SlotOf(w, i).parent;
      assert SlotOf(w', i).parent == q && !Free(SlotOf(w, i).flags) && Alive(FlagsOf(w, q));
      if q != pid && q != p { assert SlotOf(w', q) == SlotOf(w, q); }
    }
    assert ForestBut(w', rank, pid, 0);
  }

  /** INIT may have rank 0. */
  lemma RankRoot(w: World, rank: seq<nat>, pid: int, i: int)
    requires ForestBut(w, rank, pid, i)
    ensures ForestBut(w, rank[INIT := 0], pid, i)
  {
  }

  /** A slot that led to the leaving process leads to INIT. */
  lemma RelinkKeeps(w: World, pid: int, i: int, rank: seq<nat>)
    requires Kinds(w) && NoDelay(w) && ForestBut(w, rank, pid, i) && rank[INIT] == 0 && 0 <= i < NR_SLOTS
      && w.procs[i].parent == pid
    requires !(Waiting in FlagsOf(w, INIT) && Dead(FlagsOf(w, i)))
    ensures var w' := w.(procs := w.procs[i := w.procs[i].(parent := INIT)]);
      Kinds(w') && NoDelay(w') && ForestBut(w', rank, pid, i + 1)
  {
    var w' := w.(procs := w.procs[i := w.procs[i].(parent := INIT)]);
    assert KindOk(INIT, SlotOf(w, INIT).flags);
    assert forall k :: 0 <= k < NR_SLOTS ==>
      SlotOf(w', k) == if k == i then SlotOf(w, i).(parent := INIT) else SlotOf(w, k);
  }

  /** INIT stops waiting. */
  lemma AwakeKeeps(w: World, pid: int, i: int, rank: seq<nat>)
    requires Kinds(w) && NoDelay(w) && ForestBut(w, rank, pid, i)
    ensures var w' := SetFlags(w, INIT, w.procs[INIT].flags - {Waiting});
      Kinds(w') && NoDelay(w') && ForestBut(w', rank, pid, i)
  {
    var w' := SetFlags(w, INIT, w.procs[INIT].flags - {Waiting});
    assert KindOk(INIT, SlotOf(w, INIT).flags);
    assert forall k :: 0 <= k < NR_SLOTS ==>
      SlotOf(w', k) == if k == INIT then SlotOf(w, INIT).(flags := SlotOf(w, INIT).flags - {Waiting}) else SlotOf(w, k);
  }

  lemma Onward(w: World, pid: int, i: int, rank: seq<nat>)
    requires ForestBut(w, rank, pid, i) && 0 <= i < NR_SLOTS && w.procs[i].parent != pid
    ensures ForestBut(w, rank, pid, i + 1)
  {
    assert SlotOf(w, i) == w.procs[i];
  }

  lemma AdoptKeeps(w: World, pid: int, i: int)
    requires Leaving(w, pid, i) && 0 <= i < NR_SLOTS
    ensures Leaving(AdoptOne(w, pid, i, LikeLine124), pid, i + 1)
  {
    var r0 :| ForestBut(w, r0, pid, i);
    RankRoot(w, r0, pid, i);
    var rank, w' := r0[INIT := 0], AdoptOne(w, pid, i, LikeLine124);
    assert KindOk(INIT, SlotOf(w, INIT).flags) && KindOk(i, SlotOf(w, i).flags);
    if w.procs[i].parent != pid {
      Onward(w, pid, i, rank);
    } else if Waiting in w.procs[INIT].flags && Hanging in w.procs[i].flags {
      AwakeKeeps(w, pid, i, rank);
      var w1 := SetFlags(w, INIT, w.procs[INIT].flags - {Waiting});
      RelinkKeeps(w1, pid, i, rank);
      var w2 := w1.(procs := w1.procs[i := w1.procs[i].(parent := INIT)]);
      CleanKeeps(w2, i, rank, pid, i + 1);
      assert w'.procs == Cleanup(w2, i).procs;
      assert w' == Cleanup(w2, i);
    } else {
      RelinkKeeps(w, pid, i, rank);
    }
    assert ForestBut(w', rank, pid, i + 1);
  }

  lemma {:induction false} AdoptAllKeeps(w: World, pid: int, i: nat)
    requires Leaving(w, pid, i) && i <= NR_SLOTS
    ensures Inv(AdoptFrom(w, pid, i, LikeLine124))
    decreases NR_SLOTS - i
  {
    if i < NR_SLOTS {
      AdoptKeeps(w, pid, i);
      AdoptAllKeeps(AdoptOne(w, pid, i, LikeLine124), pid, i + 1);
    } else {
      var rank :| ForestBut(w, rank, pid, i);
      assert Forest(w, rank);
    }
  }

  /** With line 135 like line 124, exit keeps everything. */
  lemma ExitKeeps(w: World, pid: int, status: int)
    requires Inv(w) && MayExit(w, pid)
    ensures IsPid(w.procs[pid].parent) && Inv(Exited(w, pid, status, LikeLine124))
  {
    HeadLeaves(w, pid, status);
    AdoptAllKeeps(ExitHead(w, pid, status), pid, 0);
  }

  // ---------------------------------------------------------------- line 135

  predicate DeadChild(w: World, pid: int,
                      i: int) { 0 <= i < |w.procs| && w.procs[i].parent == pid && Dead(w.procs[i].flags) }

  /** The branch of line 135 is taken: INIT waits, for somebody else's exit, and the process leaves a dead child. */
  predicate Spoils(w: World, pid: int) {
    && 0 <= pid < |w.procs| && Waiting in FlagsOf(w, INIT) && w.procs[pid].parent != INIT
    && exists i :: 0 <= i < |w.procs| && DeadChild(w, pid, i)
  }

  lemma {:induction false} SameIfSpared(w: World, pid: int, i: nat)
    requires |w.procs| == NR_SLOTS && i <= NR_SLOTS && pid != INIT
    requires Waiting !in FlagsOf(w, INIT) || forall k :: i <= k < NR_SLOTS ==> !DeadChild(w, pid, k)
    ensures AdoptFrom(w, pid, i, AsWritten) == AdoptFrom(w, pid, i, LikeLine124)
    decreases NR_SLOTS - i
  {
    if i < NR_SLOTS {
      var w' := AdoptOne(w, pid, i, AsWritten);
      assert !(Waiting in FlagsOf(w, INIT) && DeadChild(w, pid, i));
      assert forall k :: i < k < NR_SLOTS ==> (DeadChild(w', pid, k) <==> DeadChild(w, pid, k));
      SameIfSpared(w', pid, i + 1);
    }
  }

  /** INIT stays marked as sending, dead and free: the flags decide nothing else in this loop. In the code the
      send of line 171 to such a process is never completed, `IpcInvariant.OverwrittenFlags`. */
  lemma {:induction false} StaysSpoiled(w: World, pid: int, i: nat)
    requires |w.procs| == NR_SLOTS && i <= NR_SLOTS && w.procs[INIT].flags == ALL_FLAGS - {Waiting}
    ensures AdoptFrom(w, pid, i, AsWritten).procs[INIT].flags == ALL_FLAGS - {Waiting}
    decreases NR_SLOTS - i
  {
    if i < NR_SLOTS {
      StaysSpoiled(AdoptOne(w, pid, i, AsWritten), pid, i + 1);
    }
  }

  lemma {:induction false} SpoiledFrom(w: World, pid: int, i: nat, k: int)
    requires |w.procs| == NR_SLOTS && i <= k < NR_SLOTS && Waiting in FlagsOf(w, INIT) && DeadChild(w, pid, k)
    requires pid != INIT && Alive(FlagsOf(w, INIT))
    ensures AdoptFrom(w, pid, i, AsWritten).procs[INIT].flags == ALL_FLAGS - {Waiting}
    decreases NR_SLOTS - i
  {
    var w' := AdoptOne(w, pid, i, AsWritten);
    if DeadChild(w, pid, i) {
      assert i != INIT;
      StaysSpoiled(w', pid, i + 1);
    } else {
      SpoiledFrom(w', pid, i + 1, k);
    }
  }

  lemma HeadFacts(w: World, pid: int, status: int)
    requires Inv(w) && MayExit(w, pid) && IsPid(w.procs[pid].parent)
    ensures var h := ExitHead(w, pid, status);
      && Alive(FlagsOf(h, INIT)) && (Waiting in FlagsOf(h, INIT) <==>
           Waiting in FlagsOf(w, INIT) && w.procs[pid].parent != INIT)
      && forall i :: 0 <= i < NR_SLOTS ==> (DeadChild(h, pid, i) <==> DeadChild(w, pid, i))
  {
    ParentRuns(w, pid);
    assert KindOk(INIT, SlotOf(w, INIT).flags);
  }

  /** As the code is written, exit keeps the invariant exactly when the branch of line 135 is not taken. */
  lemma ExitKeepsIff(w: World, pid: int, status: int)
    requires Inv(w) && MayExit(w, pid)
    ensures IsPid(w.procs[pid].parent)
    ensures Inv(Exited(w, pid, status, AsWritten)) <==> !Spoils(w, pid)
    ensures !Spoils(w, pid) ==> Exited(w, pid, status, AsWritten) == Exited(w, pid, status, LikeLine124)
  {
    ParentRuns(w, pid);
    HeadFacts(w, pid, status);
    var h, r := ExitHead(w, pid, status), Exited(w, pid, status, AsWritten);
    if Spoils(w, pid) {
      var k :| 0 <= k < |w.procs| && DeadChild(w, pid, k);
      SpoiledFrom(h, pid, 0, k);
      assert !KindOk(INIT, SlotOf(r, INIT).flags);
    } else {
      SameIfSpared(h, pid, 0);
      ExitKeeps(w, pid, status);
    }
  }
}
