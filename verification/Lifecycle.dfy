/** Fork, exit and wait (mm/forkexit.c) as steps on the process table: which slots are free, who waits for
    whom, and whose exit status goes where. */
module Lifecycle {
  import opened Const

  /** What the memory manager uses of `struct proc`. */
  datatype Proc = Proc(flags: Flags, parent: int, status: int)

  /** What it sends: an exit status to the parent (`cleanup`), or that there is no child to wait for. */
  datatype Reply = Reaped(to: int, pid: int, status: int) | NoChild(to: int)

  datatype World = World(procs: seq<Proc>, replies: seq<Reply>)

  /** Line 135 of mm/forkexit.c: as it is written, `p_flags = ~WAITING`, or like line 124, `&= ~WAITING`. */
  datatype Line135 = AsWritten | LikeLine124

  const NR_NATIVES := 9

  predicate IsPid(i: int) { 0 <= i < NR_SLOTS }

  function SetFlags(w: World, i: int, f: Flags): (r: World)
    requires 0 <= i < |w.procs|
    ensures |r.procs| == |w.procs|
  {
    w.(procs := w.procs[i := w.procs[i].(flags := f)])
  }

  /** `cleanup` (lines 166-174): the slot is free, and keeps its `p_parent`. */
  function Cleanup(w: World, i: int): (r: World)
    requires 0 <= i < |w.procs|
    ensures |r.procs| == |w.procs|
  {
    World(w.procs[i := w.procs[i].(flags := {FreeSlot})], w.replies + [Reaped(w.procs[i].parent, i, w.procs[i].status)])
  }

  // ---------------------------------------------------------------- fork

  function FirstFree(w: World, i: nat): (r: nat)
    requires i <= |w.procs|
    ensures i <= r <= |w.procs| && (r < |w.procs| ==> w.procs[r].flags == {FreeSlot})
    ensures forall k :: i <= k < r ==> w.procs[k].flags != {FreeSlot}
    decreases |w.procs| - i
  {
    if i == |w.procs| || w.procs[i].flags == {FreeSlot} then i else FirstFree(w, i + 1)
  }

  /** `do_fork` (lines 18-38) into slot `child`. */
  function Forked(w: World, pid: int, child: int): World
    requires 0 <= pid < |w.procs| && 0 <= child < |w.procs|
  {
    w.(procs := w.procs[child := w.procs[pid].(parent := pid)])
  }

  // ---------------------------------------------------------------- exit

  /** Lines 122-128. */
  function ExitHead(w: World, pid: int, status: int): (r: World)
    requires 0 <= pid < |w.procs| && 0 <= w.procs[pid].parent < |w.procs|
    ensures |r.procs| == |w.procs|
  {
    var p := w.procs[pid].parent;
    var w1 := w.(procs := w.procs[pid := w.procs[pid].(status := status)]);
    if Waiting in w1.procs[p].flags then Cleanup(SetFlags(w1, p, w1.procs[p].flags - {Waiting}), pid)
    else SetFlags(w1, pid, w1.procs[pid].flags + {Hanging})
  }

  /** One turn of the loop (lines 131-138). */
  function AdoptOne(w: World, pid: int, i: int, line: Line135): (r: World)
    requires 0 <= i < |w.procs| && INIT < |w.procs|
    ensures |r.procs| == |w.procs|
  {
    if w.procs[i].parent != pid then w
    else
      var w1 := w.(procs := w.procs[i := w.procs[i].(parent := INIT)]);
      if Waiting in w1.procs[INIT].flags && Hanging in w1.procs[i].flags then
        Cleanup(SetFlags(w1, INIT, if line == AsWritten
          then ALL_FLAGS - {Waiting} else w1.procs[INIT].flags - {Waiting}), i)
      else w1
  }

  function AdoptFrom(w: World, pid: int, i: nat, line: Line135): (r: World)
    requires i <= |w.procs| && INIT < |w.procs|
    ensures |r.procs| == |w.procs|
    decreases |w.procs| - i
  {
    if i == |w.procs| then w else AdoptFrom(AdoptOne(w, pid, i, line), pid, i + 1, line)
  }

  /** `do_exit` (lines 110-140). */
  function Exited(w: World, pid: int, status: int, line: Line135): World
    requires 0 <= pid < |w.procs| && 0 <= w.procs[pid].parent < |w.procs| && INIT < |w.procs|
  {
    AdoptFrom(ExitHead(w, pid, status), pid, 0, line)
  }

  // ---------------------------------------------------------------- wait

  predicate ZombieChild(w: World, pid: int, i: int) {
    0 <= i < |w.procs| && w.procs[i].parent == pid && Hanging in w.procs[i].flags
  }

  function FirstZombie(w: World, pid: int, i: nat): (r: nat)
    requires i <= |w.procs|
    ensures i <= r <= |w.procs| && (r < |w.procs| ==> ZombieChild(w, pid, r))
    ensures forall k :: i <= k < r ==> !ZombieChild(w, pid, k)
    decreases |w.procs| - i
  {
    if i == |w.procs| || ZombieChild(w, pid, i) then i else FirstZombie(w, pid, i + 1)
  }

  /** Some slot, in use or not, names `pid` as its parent. */
  predicate Named(w: World, pid: int) { exists i :: 0 <= i < |w.procs| && w.procs[i].parent == pid }

  /** `do_wait` (lines 142-164). */
  function Waited(w: World, pid: int): World
    requires 0 <= pid < |w.procs|
  {
    var z := FirstZombie(w, pid, 0);
    if z < |w.procs| then Cleanup(w, z)
    else if Named(w, pid) then SetFlags(w, pid, w.procs[pid].flags + {Waiting})
    else w.(replies := w.replies + [NoChild(pid)])
  }

  // ---------------------------------------------------------------- the code

  class MemoryManager {
    const flags: array<Flags>
    const parent: array<int>
    const status: array<int>
    var replies: seq<Reply>

    ghost predicate Valid()
      reads this
    {
      flags.Length == NR_SLOTS && parent.Length == NR_SLOTS && status.Length == NR_SLOTS && parent != status
    }

    function ProcAt(i: nat): Proc
      requires i < flags.Length && i < parent.Length && i < status.Length
      reads flags, parent, status
    {
      Proc(flags[i], parent[i], status[i])
    }

    function View(): (w: World)
      requires Valid()
      reads this, flags, parent, status
      ensures |w.procs| == NR_SLOTS
    {
      World(seq(NR_SLOTS, i requires 0 <= i < NR_SLOTS reads this, flags, parent, status requires Valid() =>
        ProcAt(i)), replies)
    }

    /** `kernel_main` (kernel/main.c:30-110): natives run and have no parent, the other slots are free. */
    constructor ()
      ensures Valid() && View() == Boot() && fresh(flags) && fresh(parent) && fresh(status)
    {
      flags := new Flags[NR_SLOTS](i => if i < NR_NATIVES then {} else {FreeSlot});
      parent := new int[NR_SLOTS](i => if i < NR_NATIVES then NO_TASK else 0);
      status := new int[NR_SLOTS](i => 0);
      replies := [];
    }

    /** `do_fork`: the pid of the child, or -1; None when an assertion fails. */
    method DoFork(pid: nat) returns (r: Option<int>)
      requires Valid() && pid < NR_SLOTS
      modifies flags, parent, status
      ensures Valid()
      ensures var c := FirstFree(old(View()), 0);
        if c < NR_NATIVES then r == None && View() == old(View())
        else if c == NR_SLOTS then r == Some(-1) && View() == old(View())
        else r == Some(c) && View() == Forked(old(View()), pid, c)
    {
      ghost var w := View();
      var i := 0;
      while i < NR_SLOTS
        invariant 0 <= i <= NR_SLOTS && FirstFree(w, 0) >= i && View() == w
      {
        assert w.procs[i] == ProcAt(i);
        if flags[i] == {FreeSlot} {
          break;
        }
        i := i + 1;
      }
      assert i == FirstFree(w, 0);
      if i < NR_NATIVES {
        return None;
      }
      if i == NR_SLOTS {
        return Some(-1);
      }
      flags[i], status[i] := flags[pid], status[pid];
      parent[i] := pid;
      assert View().procs == Forked(w, pid, i).procs;
      r := Some(i);
    }

    /** `cleanup`. */
    method Clean(i: nat)
      requires Valid() && i < NR_SLOTS
      modifies this`replies, flags
      ensures Valid() && View() == Cleanup(old(View()), i)
    {
      ghost var w := View();
      replies := replies + [Reaped(parent[i], i, status[i])];
      flags[i] := {FreeSlot};
      assert View().procs == Cleanup(w, i).procs;
    }

    method PutFlags(i: nat, f: Flags)
      requires Valid() && i < NR_SLOTS
      modifies flags
      ensures Valid() && View() == SetFlags(old(View()), i, f)
    {
      ghost var w := View();
      flags[i] := f;
      assert View().procs == SetFlags(w, i, f).procs;
    }

    /** `do_exit`, literally, but for the reply to INIT after line 135: it is recorded here as if it were delivered,
        and `IpcInvariant.OverwrittenFlags` shows that it is not. */
    method DoExit(pid: nat, code: int)
      requires Valid() && pid < NR_SLOTS && IsPid(parent[pid])
      modifies this`replies, flags, parent, status
      ensures Valid() && View() == Exited(old(View()), pid, code, AsWritten)
    {
      ghost var w := View();
      var parentPid := parent[pid];
      status[pid] := code;
      assert View().procs == w.procs[pid := w.procs[pid].(status := code)];
      if Waiting in flags[parentPid] {
        PutFlags(parentPid, flags[parentPid] - {Waiting});
        Clean(pid);
      } else {
        PutFlags(pid, flags[pid] + {Hanging});
      }
      ghost var w1 := View();
      assert w1 == ExitHead(w, pid, code);
      var i := 0;
      while i < NR_SLOTS
        invariant 0 <= i <= NR_SLOTS && Valid()
          && AdoptFrom(View(), pid, i, AsWritten) == AdoptFrom(w1, pid, 0, AsWritten)
      {
        AdoptSlot(pid, i);
        i := i + 1;
      }
    }

    /** One turn of the loop of `do_exit`. */
    method AdoptSlot(pid: nat, i: nat)
      requires Valid() && i < NR_SLOTS
      modifies this`replies, flags, parent
      ensures Valid() && View() == AdoptOne(old(View()), pid, i, AsWritten)
    {
      ghost var w := View();
      if parent[i] == pid {
        parent[i] := INIT;
        assert View().procs == w.procs[i := w.procs[i].(parent := INIT)];
        if Waiting in flags[INIT] && Hanging in flags[i] {
          PutFlags(INIT, ALL_FLAGS - {Waiting});
          Clean(i);
        }
      }
    }

    /** `do_wait`. */
    method DoWait(pid: nat)
      requires Valid() && pid < NR_SLOTS
      modifies this`replies, flags
      ensures Valid() && View() == Waited(old(View()), pid)
    {
      ghost var w := View();
      var children, i := 0, 0;
      while i < NR_SLOTS
        invariant 0 <= i <= NR_SLOTS && View() == w && FirstZombie(w, pid, 0) >= i && children >= 0
        invariant children > 0 <==> exists k :: 0 <= k < i && w.procs[k].parent == pid
      {
        assert w.procs[i] == ProcAt(i);
        if parent[i] == pid {
          children := children + 1;
          if Hanging in flags[i] {
            assert ZombieChild(w, pid, i);
            Clean(i);
            return;
          }
        }
        i := i + 1;
      }
      if children > 0 {
        PutFlags(pid, flags[pid] + {Waiting});
      } else {
        replies := replies + [NoChild(pid)];
      }
    }
  }

  function Boot(): World {
    World(seq(NR_SLOTS, i => if i < NR_NATIVES then Proc({}, NO_TASK, 0) else Proc({FreeSlot}, 0, 0)), [])
  }
}
