/** Every step of the rendezvous protocol keeps `Ipc.Inv`, and fails exactly when stated. */
module IpcInvariant {
  import opened Const
  import opened Ipc

  // ---------------------------------------------------------------- wait-for graph

  /** `Hop` follows only SENDING edges, so agreeing on them is enough. */
  lemma {:induction false} HopAgree(s: State, t: State, a: int, k: nat)
    requires Shape(s) && Shape(t)
    requires forall x :: IsSending(s, x) == IsSending(t, x)
    requires forall x :: IsSending(s, x) ==> s.procs[x].sendto == t.procs[x].sendto
    ensures Hop(s, a, k) == Hop(t, a, k)
    decreases k
  {
    if k > 0 && IsSending(s, a) { HopAgree(s, t, s.procs[a].sendto, k - 1); }
  }

  /** The stamp on the message decides nothing. */
  lemma StampBlocks(s: State, p: int, m: int, e: Event)
    requires Shape(s) && Addr(p, m) in s.mem
    ensures Blocks(Stamp(s, p, m), e) <==> Blocks(s, e)
  {
    var u := Stamp(s, p, m);
    if e.Send? {
      forall k: nat ensures Hop(s, e.dest, k) == Hop(u, e.dest, k) { HopAgree(s, u, e.dest, k); }
    }
  }

  /** A sender reaches `b` other than itself exactly when its receiver does. */
  lemma ReachesStep(s: State, a: int, b: int)
    requires Shape(s) && IsSending(s, a) && a != b
    ensures ReachesPid(s, a, b) <==> ReachesPid(s, s.procs[a].sendto, b)
  {
    if ReachesPid(s, a, b) {
      var k: nat :| Hop(s, a, k) == b;
      assert Hop(s, s.procs[a].sendto, k - 1) == b;
    }
    if ReachesPid(s, s.procs[a].sendto, b) {
      var k: nat :| Hop(s, s.procs[a].sendto, k) == b;
      assert Hop(s, a, k + 1) == b;
    }
  }

  /** Along a chain of senders the rank does not grow. */
  lemma {:induction false} RankAlong(s: State, rank: seq<nat>, a: int, k: nat)
    requires Shape(s) && Ranked(s, rank) && IsPid(a)
    ensures IsPid(Hop(s, a, k)) && rank[Hop(s, a, k)] <= rank[a]
    decreases k
  {
    if k > 0 && IsSending(s, a) { RankAlong(s, rank, s.procs[a].sendto, k - 1); }
  }

  /** The state in which `p` has become a sender to `dest`. */
  function WithEdge(s: State, p: int, dest: int): State
    requires Shape(s) && IsPid(p)
  {
    s.(procs := s.procs[p := s.procs[p].(flags := s.procs[p].flags + {Sending}, sendto := dest)])
  }

  /** Adding the edge `p` to `dest` closes a cycle exactly when `dest` already reaches `p`. */
  lemma {:induction false} EdgeKeepsAcyclic(s: State, p: int, dest: int)
    requires Shape(s) && Acyclic(s) && IsPid(p) && IsPid(dest) && !IsSending(s, p) && p != dest
    ensures Acyclic(WithEdge(s, p, dest)) <==> !ReachesPid(s, dest, p)
  {
    var t := WithEdge(s, p, dest);
    var rank :| Ranked(s, rank);
    if !ReachesPid(s, dest, p) {
      var lift := rank[dest] + 1;
      var rank' := seq(NR_SLOTS, (x: int) requires 0 <= x < NR_SLOTS =>
        if ReachesPid(s, x, p) then rank[x] + lift else rank[x]);
      forall x | IsSending(t, x)
        ensures IsPid(t.procs[x].sendto) && rank'[t.procs[x].sendto] < rank'[x]
      {
        if x == p {
          assert Hop(s, p, 0) == p;
        } else {
          ReachesStep(s, x, p);
        }
      }
      assert Ranked(t, rank');
    } else if Acyclic(t) {
      var rank' :| Ranked(t, rank');
      var k: nat :| Hop(s, dest, k) == p;
      HopWithEdge(s, p, dest, dest, k);
      var j: nat :| j <= k && Hop(t, dest, j) == p;
      RankAlong(t, rank', dest, j);
      assert IsSending(t, p);
    }
  }

  /** Until it arrives at `p`, a walk does not notice the new edge out of `p`. */
  lemma {:induction false} HopWithEdge(s: State, p: int, dest: int, a: int, k: nat)
    requires Shape(s) && IsPid(p) && !IsSending(s, p) && Hop(s, a, k) == p
    ensures exists j: nat :: j <= k && Hop(WithEdge(s, p, dest), a, j) == p
    decreases k
  {
    var t := WithEdge(s, p, dest);
    if a == p {
      assert Hop(t, a, 0) == p;
    } else {
      var b := s.procs[a].sendto;
      HopWithEdge(s, p, dest, b, k - 1);
      var j: nat :| j <= k - 1 && Hop(t, b, j) == p;
      assert Hop(t, a, j + 1) == p;
    }
  }

  /** Fewer edges, still acyclic. */
  lemma FewerEdges(s: State, t: State)
    requires Shape(s) && Shape(t) && Acyclic(s)
    requires forall x :: IsSending(t, x) ==> IsSending(s, x) && t.procs[x].sendto == s.procs[x].sendto
    ensures Acyclic(t)
  {
    var rank :| Ranked(s, rank);
    assert Ranked(t, rank);
  }

  // ---------------------------------------------------------------- single steps

  lemma StampKeeps(s: State, p: int, m: int)
    requires Inv(s) && IsPid(p) && Addr(p, m) in s.mem
    ensures Inv(Stamp(s, p, m))
  {
    FewerEdges(s, Stamp(s, p, m));
    var t := Stamp(s, p, m);
    assert forall x :: IsPid(x) ==> SenderOk(s, x) && ReceiverOk(s, x) && IdleOk(s, x) && QueueOk(s, x);
  }

  /** A send keeps the invariant; it panics exactly when the new edge would close a cycle of
      blocked senders, and fails an assertion exactly when it would wake a receiver that the
      memory manager has also marked. */
  lemma SendKeeps(s: State, p: int, dest: int, m: int)
    requires Inv(s) && Runnable(s, p) && IsPid(dest) && p != dest && Addr(p, m) in s.mem
    ensures SendStep(s, p, dest, m).Deadlock? <==> !Acyclic(WithEdge(s, p, dest))
    ensures SendStep(s, p, dest, m).AssertFailed? <==>
      Acyclic(WithEdge(s, p, dest)) && CanTake(s, dest, p) && s.procs[dest].flags != {Receiving}
    ensures SendStep(s, p, dest, m).Ok? ==> Inv(SendStep(s, p, dest, m).state)
  {
    EdgeKeepsAcyclic(s, p, dest);
    assert ReceiverOk(s, dest) && SenderOk(s, dest) && IdleOk(s, p);
    var r := SendStep(s, p, dest, m);
    if r.Ok? {
      if CanTake(s, dest, p) {
        FewerEdges(s, r.state);
        SendWakes(s, p, dest, m);
      } else {
        FewerEdges(WithEdge(s, p, dest), r.state);
        SendBlocks(s, p, dest, m);
      }
    }
  }

  lemma SendWakes(s: State, p: int, dest: int, m: int)
    requires Inv(s) && Runnable(s, p) && IsPid(dest) && p != dest && Addr(p, m) in s.mem
    requires CanTake(s, dest, p) && SendStep(s, p, dest, m).Ok?
    requires Acyclic(SendStep(s, p, dest, m).state)
    ensures Inv(SendStep(s, p, dest, m).state)
  {
    var t := SendStep(s, p, dest, m).state;
    assert ReceiverOk(s, dest);
    forall x | IsPid(x) ensures SenderOk(t, x) && ReceiverOk(t, x) && IdleOk(t, x) && QueueOk(t, x) {
      assert SenderOk(s, x) && ReceiverOk(s, x) && IdleOk(s, x) && QueueOk(s, x);
    }
  }

  lemma SendBlocks(s: State, p: int, dest: int, m: int)
    requires Inv(s) && Runnable(s, p) && IsPid(dest) && p != dest && Addr(p, m) in s.mem
    requires !CanTake(s, dest, p) && SendStep(s, p, dest, m).Ok?
    requires Acyclic(SendStep(s, p, dest, m).state)
    ensures Inv(SendStep(s, p, dest, m).state)
  {
    var t := SendStep(s, p, dest, m).state;
    assert IdleOk(s, p) && QueueOk(s, dest);
    assert p !in s.queues[dest];
    forall x | IsPid(x) ensures SenderOk(t, x) && ReceiverOk(t, x) && IdleOk(t, x) && QueueOk(t, x) {
      assert SenderOk(s, x) && ReceiverOk(s, x) && IdleOk(s, x) && QueueOk(s, x);
    }
  }

  lemma {:induction false} RemoveDistinct(q: seq<int>, x: int)
    requires Distinct(q)
    ensures Distinct(Remove(q, x)) && x !in Remove(q, x)
    ensures forall y :: y in Remove(q, x) <==> y in q && y != x
  {
    if q != [] {
      assert q == [q[0]] + q[1..];
      if q[0] != x {
        RemoveDistinct(q[1..], x);
        var rest := Remove(q[1..], x);
        assert forall j :: 0 <= j < |rest| ==> rest[j] in rest;
      }
    }
  }

  /** A receive keeps the invariant; it fails an assertion exactly when it blocks on a single
      process while an interrupt is latched. */
  lemma ReceiveKeeps(s: State, p: int, src: int, m: int)
    requires Inv(s) && Runnable(s, p) && Addr(p, m) in s.mem
    requires (IsPid(src) || src == ANY || src == INTERRUPT) && src != p
    ensures !ReceiveStep(s, p, src, m).Deadlock?
    ensures ReceiveStep(s, p, src, m).AssertFailed? <==>
      s.procs[p].hasInt && IsPid(src) && !(IsSending(s, src) && s.procs[src].sendto == p)
    ensures ReceiveStep(s, p, src, m).Ok? ==> Inv(ReceiveStep(s, p, src, m).state)
  {
    assert IdleOk(s, p) && QueueOk(s, p);
    if Candidate(s, p, src).Some? {
      assert SenderOk(s, Candidate(s, p, src).value);
    }
    var r := ReceiveStep(s, p, src, m);
    if r.Ok? {
      var t := r.state;
      FewerEdges(s, t);
      RemoveDistinct(s.queues[p], if Candidate(s, p, src).Some? then Candidate(s, p, src).value else -1);
      forall x | IsPid(x) ensures SenderOk(t, x) && ReceiverOk(t, x) && IdleOk(t, x) && QueueOk(t, x) {
        assert SenderOk(s, x) && ReceiverOk(s, x) && IdleOk(s, x) && QueueOk(s, x);
      }
    }
  }

  /** `inform_int` keeps the invariant; it fails exactly when the task it wakes is also marked. */
  lemma InformKeeps(s: State, t: int)
    requires Inv(s) && IsPid(t) && FreeSlot !in s.procs[t].flags
    ensures !InformStep(s, t).Deadlock?
    ensures InformStep(s, t).AssertFailed? <==> AwaitsInterrupt(s, t) && s.procs[t].flags != {Receiving}
    ensures InformStep(s, t).Ok? ==> Inv(InformStep(s, t).state)
  {
    assert ReceiverOk(s, t) && IdleOk(s, t) && SenderOk(s, t);
    var r := InformStep(s, t);
    if r.Ok? {
      var u := r.state;
      FewerEdges(s, u);
      forall x | IsPid(x) ensures SenderOk(u, x) && ReceiverOk(u, x) && IdleOk(u, x) && QueueOk(u, x) {
        assert SenderOk(s, x) && ReceiverOk(s, x) && IdleOk(s, x) && QueueOk(s, x);
      }
    }
  }

  lemma FlagsKeep(s: State, p: int, f: Flags)
    requires Inv(s) && IsPid(p)
    requires (f == {FreeSlot} && Sending !in s.procs[p].flags) ||
      ((forall k :: k in {Sending, Receiving, FreeSlot} ==> (k in f <==> k in s.procs[p].flags)) &&
       (Sending in f ==> f == {Sending}))
    ensures Inv(SetFlags(s, p, f))
  {
    var t := SetFlags(s, p, f);
    FewerEdges(s, t);
    forall x | IsPid(x) ensures SenderOk(t, x) && ReceiverOk(t, x) && IdleOk(t, x) && QueueOk(t, x) {
      assert SenderOk(s, x) && ReceiverOk(s, x) && IdleOk(s, x) && QueueOk(s, x);
    }
  }

  /** Marking a process keeps the invariant exactly when it is not blocked sending: a receiver asserts that
      its sender is SENDING and nothing else. */
  lemma MarkKeepsIff(s: State, p: int, f: Flag)
    requires Inv(s) && IsPid(p) && f in {Waiting, Hanging}
    ensures Inv(SetFlags(s, p, s.procs[p].flags + {f})) <==> Sending !in s.procs[p].flags
  {
    var t := SetFlags(s, p, s.procs[p].flags + {f});
    if Sending in s.procs[p].flags {
      assert f in t.procs[p].flags && !SenderOk(t, p);
    } else {
      FlagsKeep(s, p, s.procs[p].flags + {f});
    }
  }

  /** So does freeing one: a freed sender would stay in its receiver's queue. */
  lemma FreeKeepsIff(s: State, p: int)
    requires Inv(s) && IsPid(p)
    ensures Inv(SetFlags(s, p, {FreeSlot})) <==> Sending !in s.procs[p].flags
  {
    var t := SetFlags(s, p, {FreeSlot});
    if Sending in s.procs[p].flags {
      var r := s.procs[p].sendto;
      assert SenderOk(s, p) && p in t.queues[r] && !IsSending(t, p);
      assert !QueueOk(t, r);
    } else {
      FlagsKeep(s, p, {FreeSlot});
    }
  }

  /** Line 135 breaks the invariant whenever it is reached. */
  lemma OverwriteBreaks(s: State, p: int)
    requires Shape(s) && IsPid(p)
    ensures !Inv(SetFlags(s, p, ALL_FLAGS - {Waiting}))
  {
    var t := SetFlags(s, p, ALL_FLAGS - {Waiting});
    assert Hanging in t.procs[p].flags && !SenderOk(t, p);
  }

  /** After `mm/forkexit.c:135` has turned the flags of a waiting process into `~WAITING`, nothing sent to it
      arrives. It looks blocked sending to NO_TASK, so that `deadlock` follows it out of the process table;
      were that to come back, the sender would fail an assertion or block. */
  lemma OverwrittenFlags(s: State, d: int, p: int, m: int)
    requires Inv(s) && IsPid(d) && Waiting in s.procs[d].flags && FreeSlot !in s.procs[d].flags
    requires Runnable(s, p) && p != d && Addr(p, m) in s.mem
    ensures var t := SetFlags(s, d, ALL_FLAGS - {Waiting});
      var r := SendStep(t, p, d, m);
      && !IsPid(Hop(t, d, 1)) && !r.Deadlock?
      && (r.AssertFailed? <==> s.procs[d].recvfrom == p || s.procs[d].recvfrom == ANY)
      && (r.Ok? ==> IsSending(r.state, p) && r.state.mem == s.mem)
  {
    assert SenderOk(s, d) && ReceiverOk(s, d) && IdleOk(s, d);
    var t := SetFlags(s, d, ALL_FLAGS - {Waiting});
    assert Hop(t, d, 0) == d && Hop(t, d, 1) == NO_TASK;
    forall k: nat ensures Hop(t, d, k) != p {
      if k > 0 { assert Hop(t, d, k) == Hop(t, NO_TASK, k - 1) == NO_TASK; }
    }
  }

  /** Copying a slot keeps the invariant exactly when nobody is blocked on either slot, for the child starts
      with the parent's list head, and the parent is not blocked sending, for the child would be sending too
      without being queued anywhere. */
  lemma ForkKeepsIff(s: State, parent: int, child: int)
    requires Inv(s) && ForkGuard(s, parent, child)
    ensures Inv(ForkStep(s, parent, child)) <==>
      s.queues[parent] == [] && s.queues[child] == [] && Sending !in s.procs[parent].flags
  {
    var t := ForkStep(s, parent, child);
    if Sending in s.procs[parent].flags {
      var r := s.procs[parent].sendto;
      assert SenderOk(s, parent) && QueueOk(s, r) && QueueOk(s, child);
      if r == child {
        assert parent in s.queues[child];
        assert SenderOk(t, parent) ==> parent in s.queues[parent];
        assert QueueOk(s, parent);
        assert !SenderOk(t, parent);
      } else {
        assert child !in s.queues[r];
        assert t.queues[r] == s.queues[r];
        assert !SenderOk(t, child);
      }
    } else {
      QuietForkKeepsIff(s, parent, child);
    }
  }

  lemma QuietForkKeepsIff(s: State, parent: int, child: int)
    requires Inv(s) && ForkGuard(s, parent, child) && Sending !in s.procs[parent].flags
    ensures Inv(ForkStep(s, parent, child)) <==> s.queues[parent] == [] && s.queues[child] == []
  {
    var t := ForkStep(s, parent, child);
    FewerEdges(s, t);
    assert QueueOk(s, parent) && QueueOk(s, child);
    if s.queues[parent] == [] && s.queues[child] == [] {
      forall x | IsPid(x) ensures SenderOk(t, x) && ReceiverOk(t, x) && IdleOk(t, x) && QueueOk(t, x) {
        assert SenderOk(s, x) && ReceiverOk(s, x) && IdleOk(s, x) && QueueOk(s, x);
      }
    } else if s.queues[parent] != [] {
      var x := s.queues[parent][0];
      assert x in t.queues[child] && t.procs[x].sendto == parent;
      assert !QueueOk(t, child);
    } else {
      var x := s.queues[child][0];
      assert x in s.queues[child] && IsSending(t, x) && t.procs[x].sendto == child;
      assert !SenderOk(t, x);
    }
  }

  /** A step that does not stop the machine keeps the invariant exactly when the memory manager left alone
      who is blocked, and did not execute line 135. */
  lemma StepKeepsIff(s: State, e: Event)
    requires Inv(s) && CanOccur(s, e)
    ensures Step(s, e).Ok? ==> (Inv(Step(s, e).state) <==> Unblocked(s, e))
  {
    match e
    case Send(p, dest, m) =>
      StampKeeps(s, p, m);
      SendKeeps(Stamp(s, p, m), p, dest, m);
    case Receive(p, src, m) =>
      StampKeeps(s, p, m);
      ReceiveKeeps(Stamp(s, p, m), p, src, m);
    case Inform(t) => InformKeeps(s, t);
    case Write(p, m, c) =>
      var t := Step(s, e).state;
      FewerEdges(s, t);
      forall x | IsPid(x) ensures SenderOk(t, x) && ReceiverOk(t, x) && IdleOk(t, x) && QueueOk(t, x) {
        assert SenderOk(s, x) && ReceiverOk(s, x) && IdleOk(s, x) && QueueOk(s, x);
      }
    case Mark(p, f) => MarkKeepsIff(s, p, f);
    case Unmark(p) => FlagsKeep(s, p, s.procs[p].flags - {Waiting});
    case Free(p) => FreeKeepsIff(s, p);
    case Fork(a, c) => ForkKeepsIff(s, a, c);
    case Overwrite => OverwriteBreaks(s, INIT);
  }

  /** The invariant holds after every enabled step that does not stop the machine. */
  lemma StepKeeps(s: State, e: Event)
    requires Inv(s) && Enabled(s, e)
    ensures Step(s, e).Ok? ==> Inv(Step(s, e).state)
  {
    hide Inv, CanOccur, Step, Unblocked;
    StepKeepsIff(s, e);
  }
}
