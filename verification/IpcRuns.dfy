/** What the rendezvous protocol guarantees over whole runs from boot. */
module IpcRuns {
  import opened Const
  import opened Ipc
  import opened IpcInvariant

  /** The process table after `kernel_main`: nine live slots, the rest free (and zeroed). */
  function Boot(mem: map<Addr, Message>): State {
    State(
      seq(NR_SLOTS, i => if i < NR_TASKS + NR_NATIVE_PROCS then Proc({}, None, NO_TASK, NO_TASK, false)
                         else Proc({FreeSlot}, None, 0, 0, false)),
      seq(NR_SLOTS, i => []),
      mem)
  }

  /** The events `es` lead from `s` to `t` without a panic or a failed assertion. */
  ghost predicate RunTo(s: State, es: seq<Event>, t: State)
    requires Shape(s)
    decreases |es|
  {
    if es == [] then s == t
    else Enabled(s, es[0]) && Step(s, es[0]).Ok? && RunTo(Step(s, es[0]).state, es[1..], t)
  }

  lemma BootInv(mem: map<Addr, Message>)
    ensures Inv(Boot(mem))
  {
    var s := Boot(mem);
    assert Ranked(s, seq(NR_SLOTS, i => 0));
    assert forall x :: IsPid(x) ==> SenderOk(s, x) && ReceiverOk(s, x) && IdleOk(s, x) && QueueOk(s, x);
  }

  /** The invariant, acyclicity of the wait-for graph included, holds in every reachable state. */
  lemma {:induction false} RunKeeps(s: State, es: seq<Event>, t: State)
    requires Inv(s) && RunTo(s, es, t)
    ensures Inv(t)
    decreases |es|
  {
    if es != [] {
      StepKeeps(s, es[0]);
      RunKeeps(Step(s, es[0]).state, es[1..], t);
    }
  }

  /** No missed rendezvous: in every reachable state, nobody is blocked sending to a process that
      is blocked receiving from it or from anybody. */
  lemma NoMissedRendezvous(mem: map<Addr, Message>, es: seq<Event>, t: State, p: int, q: int)
    requires RunTo(Boot(mem), es, t) && Shape(t)
    ensures !(IsSending(t, p) && t.procs[p].sendto == q && IsReceiving(t, q) &&
              (t.procs[q].recvfrom == p || t.procs[q].recvfrom == ANY))
  {
    BootInv(mem);
    RunKeeps(Boot(mem), es, t);
    if IsSending(t, p) { assert SenderOk(t, p); }
    if IsReceiving(t, q) { assert ReceiverOk(t, q); }
  }

  /** Nobody waits, directly or through others, on itself in a reachable state. */
  lemma NoWaitCycle(mem: map<Addr, Message>, es: seq<Event>, t: State, p: int, k: nat)
    requires RunTo(Boot(mem), es, t) && Shape(t) && IsSending(t, p)
    ensures Hop(t, p, k + 1) != p
  {
    BootInv(mem);
    RunKeeps(Boot(mem), es, t);
    var rank :| Ranked(t, rank);
    RankAlong(t, rank, t.procs[p].sendto, k);
  }

  /** When the machine stops: the exact condition for every kind of step, in any reachable state. */
  ghost predicate Stops(s: State, e: Event)
    requires Shape(s) && Enabled(s, e)
  {
    match e
    case Send(p, dest, m) =>
      ReachesPid(s, dest, p) || (CanTake(s, dest, p) && s.procs[dest].flags != {Receiving})
    case Receive(p, src, m) =>
      s.procs[p].hasInt && IsPid(src) && !(IsSending(s, src) && s.procs[src].sendto == p)
    case Inform(t) => AwaitsInterrupt(s, t) && s.procs[t].flags != {Receiving}
    case Write(_, _, _) => false
    case Mark(_, _) => false
    case Unmark(_) => false
    case Free(_) => false
    case Fork(_, _) => false
    case Overwrite => false
  }

  lemma StopsIff(s: State, e: Event)
    requires Inv(s) && Enabled(s, e)
    ensures !Step(s, e).Ok? <==> Stops(s, e)
  {
    match e
    case Send(p, dest, m) =>
      var u := Stamp(s, p, m);
      StampKeeps(s, p, m);
      SendKeeps(u, p, dest, m);
      EdgeKeepsAcyclic(u, p, dest);
      forall k: nat ensures Hop(s, dest, k) == Hop(u, dest, k) { HopAgree(s, u, dest, k); }
    case Receive(p, src, m) =>
      StampKeeps(s, p, m);
      ReceiveKeeps(Stamp(s, p, m), p, src, m);
    case Inform(t) => InformKeeps(s, t);
    case Write(_, _, _) =>
    case Mark(_, _) =>
    case Unmark(_) =>
    case Free(_) =>
    case Fork(_, _) =>
    case Overwrite =>
  }

  /** From `s` the events `es` lead to a state in which `e` can occur and ends in `o`. */
  ghost predicate Ends(s: State, es: seq<Event>, e: Event, o: Outcome)
    requires Shape(s)
  {
    exists t :: Shape(t) && RunTo(s, es, t) && Enabled(t, e) && Step(t, e) == o
  }

  /** One more event at the end of a run. */
  lemma {:induction false} Then(s: State, es: seq<Event>, t: State, e: Event)
    requires Shape(s) && RunTo(s, es, t) && Shape(t) && Enabled(t, e) && Step(t, e).Ok?
    ensures RunTo(s, es + [e], Step(t, e).state)
    decreases |es|
  {
    hide CanOccur, Unblocked, Step;
    var fs := es + [e];
    if es == [] {
      assert fs == [e] && fs[1..] == [];
    } else {
      assert fs[0] == es[0] && fs[1..] == es[1..] + [e];
      Then(Step(s, es[0]).state, es[1..], t, e);
    }
  }

  lemma One(s: State, e: Event)
    requires Shape(s) && Enabled(s, e) && Step(s, e).Ok?
    ensures RunTo(s, [e], Step(s, e).state)
  {
    Then(s, [], s, e);
    assert [] + [e] == [e];
  }

  lemma Two(s: State, e: Event, f: Event)
    requires Shape(s) && Enabled(s, e) && Step(s, e).Ok? && Enabled(Step(s, e).state, f)
      && Step(Step(s, e).state, f).Ok?
    ensures RunTo(s, [e], Step(s, e).state) && RunTo(s, [e, f], Step(Step(s, e).state, f).state)
  {
    One(s, e);
    Then(s, [e], Step(s, e).state, f);
    assert [e] + [f] == [e, f];
  }

  /** Who is not sending reaches nobody else. */
  lemma Still(s: State, a: int, b: int)
    requires Shape(s) && !IsSending(s, a)
    ensures ReachesPid(s, a, b) <==> a == b
  {
    assert Hop(s, a, 0) == a;
  }

  /** Line 175 does fail: a task whose interrupt is latched receives from somebody who is not sending. */
  lemma LatchedReceiveFails(mem: map<Addr, Message>)
    requires Addr(2, 0) in mem
    ensures Ends(Boot(mem), [Inform(2)], Receive(2, 3, 0), AssertFailed)
  {
    var s := Boot(mem);
    One(s, Inform(2));
    var t := Step(s, Inform(2)).state;
    assert Enabled(t, Receive(2, 3, 0)) && Step(t, Receive(2, 3, 0)) == AssertFailed;
  }

  /** Two processes that send to each other deadlock. */
  lemma SendersDeadlock(mem: map<Addr, Message>)
    requires Addr(5, 0) in mem && Addr(6, 0) in mem
    ensures Ends(Boot(mem), [Send(5, 6, 0)], Send(6, 5, 0), Deadlock)
  {
    var s := Boot(mem);
    Still(Stamp(s, 5, 0), 6, 5);
    One(s, Send(5, 6, 0));
    var t := Step(s, Send(5, 6, 0)).state;
    assert Hop(Stamp(t, 6, 0), 5, 1) == 6;
    assert Enabled(t, Send(6, 5, 0)) && Step(t, Send(6, 5, 0)) == Deadlock;
  }

  /** The assertion after a hand-over fails when the receiver is also marked: INIT asks to wait with SEND alone
      and receives from anybody, the memory manager marks it, and then another process sends to it. */
  lemma MarkedReceiverFails(mem: map<Addr, Message>)
    requires Addr(4, 0) in mem && Addr(5, 0) in mem && Addr(6, 0) in mem
    ensures Ends(Boot(mem), [Receive(4, ANY, 0), Send(5, 4, 0), Receive(5, ANY, 0), Mark(5, Waiting)],
                 Send(6, 5, 0), AssertFailed)
  {
    var s := Boot(mem);
    var u := Step(s, Receive(4, ANY, 0)).state;
    Still(Stamp(u, 5, 0), 4, 5);
    Two(s, Receive(4, ANY, 0), Send(5, 4, 0));
    var v := Step(u, Send(5, 4, 0)).state;
    var es := [Receive(4, ANY, 0), Send(5, 4, 0)];
    Then(s, es, v, Receive(5, ANY, 0));
    var w := Step(v, Receive(5, ANY, 0)).state;
    Then(s, es + [Receive(5, ANY, 0)], w, Mark(5, Waiting));
    var t := Step(w, Mark(5, Waiting)).state;
    assert es + [Receive(5, ANY, 0)] + [Mark(5, Waiting)] ==
           [Receive(4, ANY, 0), Send(5, 4, 0), Receive(5, ANY, 0), Mark(5, Waiting)];
    Still(Stamp(t, 6, 0), 5, 6);
    assert t.procs[5].flags == {Receiving, Waiting};
    assert Enabled(t, Send(6, 5, 0)) && Step(t, Send(6, 5, 0)) == AssertFailed;
  }

  // ---------------------------------------------------------------- runs with any marks, frees and forks

  /** A step as the code takes it: the memory manager is not held up by who is blocked. */
  ghost predicate Goes(s: State, e: Event, t: State)
    requires Shape(s)
  {
    CanOccur(s, e) && Step(s, e) == Ok(t)
  }

  ghost predicate AnyRun(run: seq<State>, es: seq<Event>) {
    && |run| == |es| + 1 && (forall i :: 0 <= i < |run| ==> Shape(run[i]))
    && forall i :: 0 <= i < |es| ==> Goes(run[i], es[i], run[i + 1])
  }

  ghost predicate InvUpTo(run: seq<State>, n: nat)
    requires n < |run|
  {
    forall i :: 0 <= i <= n ==> Inv(run[i])
  }

  ghost predicate UnblockedUpTo(run: seq<State>, es: seq<Event>, n: nat)
    requires AnyRun(run, es) && n <= |es|
  {
    forall i :: 0 <= i < n ==> Unblocked(run[i], es[i])
  }

  /** Over every run, whomever the memory manager marks, frees and copies, all states satisfy the invariant if
      and only if nobody it marked, freed or copied was blocked sending, every copy was made between slots that
      nobody was blocked on, and line 135 was never executed. */
  lemma {:induction false} RunKeepsIff(run: seq<State>, es: seq<Event>, n: nat)
    requires AnyRun(run, es) && Inv(run[0]) && n <= |es|
    ensures InvUpTo(run, n) <==> UnblockedUpTo(run, es, n)
  {
    hide Inv, Step, CanOccur, Unblocked;
    if n > 0 {
      RunKeepsIff(run, es, n - 1);
      var s, e := run[n - 1], es[n - 1];
      assert Goes(s, e, run[n - 1 + 1]);
      assert InvUpTo(run, n) <==> InvUpTo(run, n - 1) && Inv(run[n]);
      assert UnblockedUpTo(run, es, n) <==> UnblockedUpTo(run, es, n - 1) && Unblocked(s, e);
      if Inv(s) { StepKeepsIff(s, e); }
    }
  }

  /** A fork can break the queues: while a process waits for the memory manager to fork it, another one blocks
      sending to it, and the child starts with the same list head. */
  lemma ForkBreaks(mem: map<Addr, Message>)
    requires Addr(5, 0) in mem && Addr(6, 0) in mem
    ensures exists t :: Shape(t) && RunTo(Boot(mem), [Receive(5, 4, 0), Send(6, 5, 0)], t) && ForkGuard(t, 5, 9)
              && t.queues[5] == [6] && !Inv(ForkStep(t, 5, 9))
  {
    var s := Boot(mem);
    var u := Step(s, Receive(5, 4, 0)).state;
    Still(Stamp(u, 6, 0), 5, 6);
    assert Enabled(u, Send(6, 5, 0)) && Step(u, Send(6, 5, 0)).Ok?;
    Two(s, Receive(5, 4, 0), Send(6, 5, 0));
    var t := Step(u, Send(6, 5, 0)).state;
    BootInv(mem);
    RunKeeps(s, [Receive(5, 4, 0), Send(6, 5, 0)], t);
    ForkKeepsIff(t, 5, 9);
  }

  /** INIT sends its request to the memory manager with SEND alone, and sends again before that runs. */
  const SENT_TWICE := [Receive(4, ANY, 0), Send(5, 4, 0), Send(5, 4, 0)]

  /** The memory manager is about to receive from 5. */
  ghost predicate SenderQueued(t: State) {
    && Inv(t) && Runnable(t, 4) && Addr(4, 0) in t.mem && !t.procs[4].hasInt && t.queues[4] == [5]
    && t.procs[5].flags == {Sending} && t.procs[9].flags == {FreeSlot}
  }

  lemma SentTwice(mem: map<Addr, Message>) returns (t: State)
    requires Addr(4, 0) in mem && Addr(5, 0) in mem
    ensures RunTo(Boot(mem), SENT_TWICE, t) && SenderQueued(t) && t.queues[5] == t.queues[9] == []
  {
    var s := Boot(mem);
    var u := Step(s, Receive(4, ANY, 0)).state;
    Still(Stamp(u, 5, 0), 4, 5);
    Two(s, Receive(4, ANY, 0), Send(5, 4, 0));
    var v := Step(u, Send(5, 4, 0)).state;
    Still(Stamp(v, 5, 0), 4, 5);
    Then(s, [Receive(4, ANY, 0), Send(5, 4, 0)], v, Send(5, 4, 0));
    t := Step(v, Send(5, 4, 0)).state;
    assert [Receive(4, ANY, 0), Send(5, 4, 0)] + [Send(5, 4, 0)] == SENT_TWICE;
    BootInv(mem);
    RunKeeps(s, SENT_TWICE, t);
  }

  /** The step `e` breaks the invariant, and then `f` ends in `o`. */
  ghost predicate Spoils(s: State, e: Event, f: Event, o: Outcome)
    requires Shape(s)
  {
    CanOccur(s, e) && Step(s, e).Ok? &&
    var t := Step(s, e).state;
    !Inv(t) && CanOccur(t, f) && Step(t, f) == o
  }

  lemma FlaggedSenderSpoils(t: State)
    requires SenderQueued(t)
    ensures Spoils(t, Mark(5, Waiting), Receive(4, ANY, 0), AssertFailed)
    ensures Spoils(t, Free(5), Receive(4, ANY, 0), AssertFailed)
  {
    MarkKeepsIff(t, 5, Waiting);
    FreeKeepsIff(t, 5);
    hide Inv;
    assert Shape(Stamp(SetFlags(t, 5, {FreeSlot}), 4, 0));
  }

  lemma CopiedSenderSpoils(t: State)
    requires SenderQueued(t)
    ensures Spoils(t, Fork(5, 9), Send(4, 9, 0), Deadlock)
  {
    assert QueueOk(t, 4);
    ForkKeepsIff(t, 5, 9);
    hide Inv;
    var u := ForkStep(t, 5, 9);
    assert Hop(Stamp(u, 4, 0), 9, 1) == 4;
  }

  /** The memory manager at work on a process that is blocked sending: a copy of it is taken for a sender too,
      and the reply to the child (mm/forkexit.c:105) panics; once it is marked or freed, the next receive of
      the memory manager fails an assertion. */
  lemma BlockedBreaks(mem: map<Addr, Message>)
    requires Addr(4, 0) in mem && Addr(5, 0) in mem
    ensures exists t ::
      && Shape(t) && RunTo(Boot(mem), SENT_TWICE, t) && t.procs[5].flags == {Sending}
      && t.queues[5] == t.queues[9] == []
      && Spoils(t, Fork(5, 9), Send(4, 9, 0), Deadlock)
      && Spoils(t, Mark(5, Waiting), Receive(4, ANY, 0), AssertFailed)
      && Spoils(t, Free(5), Receive(4, ANY, 0), AssertFailed)
  {
    var t := SentTwice(mem);
    FlaggedSenderSpoils(t);
    CopiedSenderSpoils(t);
  }

  // ---------------------------------------------------------------- tasks and interrupts

  /** A task that receives does nothing else, and has a buffer. */
  predicate TaskOk(s: State, t: int)
    requires Shape(s) && IsPid(t)
  {
    var q := s.procs[t];
    Receiving in q.flags ==> q.flags == {Receiving} && q.msg.Some? && Addr(t, q.msg.value) in s.mem
  }

  /** The memory manager marks no task, and copies over none. */
  predicate SparesTasks(e: Event) {
    match e
    case Mark(p, _) => p >= NR_TASKS
    case Fork(_, c) => c >= NR_TASKS
    case _ => true
  }

  lemma TaskStep(s: State, e: Event, u: State, t: int)
    requires Shape(s) && Goes(s, e, u) && Shape(u) && SparesTasks(e) && 0 <= t < NR_TASKS && TaskOk(s, t)
    ensures TaskOk(u, t)
  {
  }

  /** In every run in which the memory manager marks no task and copies over none, whatever else it does, the
      assertion of `inform_int` (line 313) never fails for a task. */
  lemma {:induction false} InformNeverFails(mem: map<Addr, Message>, run: seq<State>, es: seq<Event>, t: int)
    requires AnyRun(run, es) && run[0] == Boot(mem) && 0 <= t < NR_TASKS
    requires forall e :: e in es ==> SparesTasks(e)
    ensures TaskOk(run[|es|], t) && InformStep(run[|es|], t).Ok?
    decreases |es|
  {
    hide Goes;
    if es != [] {
      var n := |es| - 1;
      assert forall i :: 0 <= i < n ==> es[..n][i] == es[i] && Goes(run[i], es[i], run[i + 1]);
      InformNeverFails(mem, run[..n + 1], es[..n], t);
      assert Goes(run[n], es[n], run[n + 1]) && es[n] in es;
      TaskStep(run[n], es[n], run[n + 1], t);
    }
  }

  // ---------------------------------------------------------------- conservation of messages

  /** The message that `p` hands to the kernel for `q` in this step. */
  function PostedNow(s: State, e: Event, p: int, q: int): seq<Message>
    requires Shape(s)
  {
    match e
    case Send(a, b, m) => if a == p && b == q && Addr(p, m) in s.mem then [s.mem[Addr(p, m)].(source := p)] else []
    case _ => []
  }

  /** What this step, ending in `t`, leaves in a buffer of `q` on behalf of `p`. */
  function DeliveredNow(s: State, e: Event, t: State, p: int, q: int): seq<Message>
    requires Shape(s)
  {
    match e
    case Send(a, b, m) =>
      if a == p && b == q && IsPid(q) && CanTake(s, q, p) && s.procs[q].msg.Some? &&
         Addr(q, s.procs[q].msg.value) in t.mem
      then [t.mem[Addr(q, s.procs[q].msg.value)]] else []
    case Receive(a, src, m) =>
      if a == q && IsPid(q) && !TakesInterrupt(s, q, src) && Candidate(s, q, src) == Some(p) && Addr(q, m) in t.mem
      then [t.mem[Addr(q, m)]] else []
    case _ => []
  }

  /** The message of `p` that is still waiting for `q`. */
  function Pending(s: State, p: int, q: int): seq<Message>
    requires Shape(s)
  {
    if IsSending(s, p) && s.procs[p].sendto == q && s.procs[p].msg.Some? && Addr(p, s.procs[p].msg.value) in s.mem
    then [s.mem[Addr(p, s.procs[p].msg.value)]] else []
  }

  ghost function Posted(s: State, es: seq<Event>, t: State, p: int, q: int): seq<Message>
    requires Shape(s) && RunTo(s, es, t)
    decreases |es|
  {
    if es == [] then []
    else PostedNow(s, es[0], p, q) + Posted(Step(s, es[0]).state, es[1..], t, p, q)
  }

  ghost function Delivered(s: State, es: seq<Event>, t: State, p: int, q: int): seq<Message>
    requires Shape(s) && RunTo(s, es, t)
    decreases |es|
  {
    if es == [] then []
    else
      var u := Step(s, es[0]).state;
      DeliveredNow(s, es[0], u, p, q) + Delivered(u, es[1..], t, p, q)
  }

  lemma SendConserves(s: State, e: Event, p: int, q: int)
    requires Inv(s) && e.Send? && Enabled(s, e) && Step(s, e).Ok?
    ensures Pending(s, p, q) + PostedNow(s, e, p, q) ==
            DeliveredNow(s, e, Step(s, e).state, p, q) + Pending(Step(s, e).state, p, q)
  {
    assert ReceiverOk(s, e.dest) && SenderOk(s, e.dest);
    if IsPid(p) { assert SenderOk(s, p); }
  }

  lemma ReceiveConserves(s: State, e: Event, p: int, q: int)
    requires Inv(s) && e.Receive? && Enabled(s, e) && Step(s, e).Ok?
    ensures Pending(s, p, q) + PostedNow(s, e, p, q) ==
            DeliveredNow(s, e, Step(s, e).state, p, q) + Pending(Step(s, e).state, p, q)
  {
    var c := Candidate(s, e.p, e.src);
    var u := Stamp(s, e.p, e.m);
    assert Candidate(u, e.p, e.src) == c && QueueOk(s, e.p);
    if c.Some? {
      assert e.src == ANY ==> c.value in s.queues[e.p];
      assert SenderOk(s, c.value);
    }
    if IsPid(p) { assert SenderOk(s, p); }
    if TakesInterrupt(s, e.p, e.src) {
    } else if c == Some(p) && e.p == q {
      assert Pending(s, p, q) == [s.mem[Addr(p, s.procs[p].msg.value)]];
      assert Pending(Step(s, e).state, p, q) == [];
    } else {
      StillPending(s, e, p, q);
    }
  }

  /** A receive that does not take the message of `p` leaves it waiting. */
  lemma StillPending(s: State, e: Event, p: int, q: int)
    requires Inv(s) && e.Receive? && Enabled(s, e) && Step(s, e).Ok? && !TakesInterrupt(s, e.p, e.src)
    requires !(Candidate(s, e.p, e.src) == Some(p) && e.p == q)
    ensures Pending(Step(s, e).state, p, q) == Pending(s, p, q)
    ensures DeliveredNow(s, e, Step(s, e).state, p, q) == []
  {
    var c := Candidate(s, e.p, e.src);
    assert Candidate(Stamp(s, e.p, e.m), e.p, e.src) == c && QueueOk(s, e.p);
    if c.Some? {
      assert e.src == ANY ==> c.value in s.queues[e.p];
      assert SenderOk(s, c.value);
    }
    if IsPid(p) { assert SenderOk(s, p); }
  }

  lemma StepConserves(s: State, e: Event, p: int, q: int)
    requires Inv(s) && Enabled(s, e) && Step(s, e).Ok?
    ensures Pending(s, p, q) + PostedNow(s, e, p, q) ==
            DeliveredNow(s, e, Step(s, e).state, p, q) + Pending(Step(s, e).state, p, q)
  {
    if IsPid(p) { assert SenderOk(s, p); }
    match e
    case Send(a, b, m) => SendConserves(s, e, p, q);
    case Receive(a, src, m) => ReceiveConserves(s, e, p, q);
    case Inform(t) => assert ReceiverOk(s, t);
    case Write(_, _, _) =>
    case Mark(_, _) =>
    case Unmark(_) =>
    case Free(_) =>
    case Fork(_, _) =>
    case Overwrite =>
  }

  /** Two balanced steps compose. */
  lemma Splice<T>(have: seq<T>, inn: seq<T>, out: seq<T>, mid: seq<T>, inn': seq<T>, out': seq<T>, end: seq<T>)
    requires have + inn == out + mid && mid + inn' == out' + end
    ensures have + (inn + inn') == (out + out') + end
  {
    calc {
      have + (inn + inn');
      (have + inn) + inn';
      (out + mid) + inn';
      out + (mid + inn');
      out + (out' + end);
      (out + out') + end;
    }
  }

  /** Conservation: over every run, the messages `p` has posted to `q` are, in order and with
      their contents, those delivered to `q` followed by the one still blocked. Hence none is
      lost, duplicated, reordered or changed, and a sender stays blocked until its message is
      copied. */
  lemma {:induction false} RunConserves(s: State, es: seq<Event>, t: State, p: int, q: int)
    requires Inv(s) && RunTo(s, es, t) && Shape(t)
    ensures Pending(s, p, q) + Posted(s, es, t, p, q) == Delivered(s, es, t, p, q) + Pending(t, p, q)
    decreases |es|
  {
    if es != [] {
      var u := Step(s, es[0]).state;
      StepKeeps(s, es[0]);
      StepConserves(s, es[0], p, q);
      RunConserves(u, es[1..], t, p, q);
      Splice(Pending(s, p, q), PostedNow(s, es[0], p, q), DeliveredNow(s, es[0], u, p, q), Pending(u, p, q),
             Posted(u, es[1..], t, p, q), Delivered(u, es[1..], t, p, q), Pending(t, p, q));
    }
  }

  // ---------------------------------------------------------------- arrival order

  function BlockedNow(s: State, e: Event, r: int): seq<int>
    requires Shape(s)
  {
    match e
    case Send(p, dest, m) => if dest == r && IsPid(r) && !CanTake(s, r, p) then [p] else []
    case _ => []
  }

  function TakenNow(s: State, e: Event, r: int): seq<int>
    requires Shape(s)
  {
    match e
    case Receive(a, src, m) =>
      if a == r && IsPid(r) && !TakesInterrupt(s, r, src) && Candidate(s, r, src).Some?
      then [Candidate(s, r, src).value] else []
    case _ => []
  }

  ghost function Blocked(s: State, es: seq<Event>, t: State, r: int): seq<int>
    requires Shape(s) && RunTo(s, es, t)
    decreases |es|
  {
    if es == [] then [] else BlockedNow(s, es[0], r) + Blocked(Step(s, es[0]).state, es[1..], t, r)
  }

  ghost function Taken(s: State, es: seq<Event>, t: State, r: int): seq<int>
    requires Shape(s) && RunTo(s, es, t)
    decreases |es|
  {
    if es == [] then [] else TakenNow(s, es[0], r) + Taken(Step(s, es[0]).state, es[1..], t, r)
  }

  /** `r` never asks for one particular process in `es`. */
  predicate ReceivesAny(es: seq<Event>, r: int) {
    forall e :: e in es ==> e.Receive? && e.p == r ==> e.src == ANY || e.src == INTERRUPT
  }

  lemma StepQueues(s: State, e: Event, r: int)
    requires Inv(s) && Enabled(s, e) && Step(s, e).Ok? && IsPid(r) && ReceivesAny([e], r)
    ensures s.queues[r] + BlockedNow(s, e, r) == TakenNow(s, e, r) + Step(s, e).state.queues[r]
  {
    assert e in [e];
    if e.Receive? && e.p != r && Candidate(s, e.p, e.src).Some? { assert QueueOk(s, e.p) && QueueOk(s, r); }
  }

  /** What a receiver that always receives from ANY has taken, and who is still queued on it, are in order all
      that have blocked on it. */
  lemma {:induction false} TakenInOrder(s: State, es: seq<Event>, t: State, r: int)
    requires Inv(s) && RunTo(s, es, t) && Shape(t) && IsPid(r) && ReceivesAny(es, r)
    ensures s.queues[r] + Blocked(s, es, t, r) == Taken(s, es, t, r) + t.queues[r]
    decreases |es|
  {
    if es != [] {
      var u := Step(s, es[0]).state;
      StepKeeps(s, es[0]);
      StepQueues(s, es[0], r);
      assert es[0] in es && forall e :: e in es[1..] ==> e in es;
      TakenInOrder(u, es[1..], t, r);
      Splice(s.queues[r], BlockedNow(s, es[0], r), TakenNow(s, es[0], r), u.queues[r],
             Blocked(u, es[1..], t, r), Taken(u, es[1..], t, r), t.queues[r]);
    }
  }

  /** The index of the last send of `p`, -1 if there is none. */
  function LastSend(es: seq<Event>, p: int): (i: int)
    ensures -1 <= i < |es| && (i >= 0 ==> es[i].Send? && es[i].p == p)
    ensures forall k :: i < k < |es| ==> !(es[k].Send? && es[k].p == p)
  {
    if es == [] then -1
    else if es[|es| - 1].Send? && es[|es| - 1].p == p then |es| - 1
    else LastSend(es[..|es| - 1], p)
  }

  /** Every queue is in the order in which its members sent what they wait with. */
  ghost predicate Ordered(s: State, past: seq<Event>)
    requires Shape(s)
  {
    forall r :: IsPid(r) ==> OrderedQueue(s.queues[r], past)
  }

  predicate OrderedQueue(q: seq<int>, past: seq<Event>) {
    && (forall i :: 0 <= i < |q| ==> 0 <= LastSend(past, q[i]))
    && forall i, j :: 0 <= i < j < |q| ==> LastSend(past, q[i]) < LastSend(past, q[j])
  }

  lemma {:induction false} RemoveOrdered(q: seq<int>, x: int, past: seq<Event>)
    requires OrderedQueue(q, past)
    ensures OrderedQueue(Remove(q, x), past) && forall y :: y in Remove(q, x) ==> y in q
  {
    hide LastSend;
    if q != [] {
      assert OrderedQueue(q[1..], past);
      if q[0] != x {
        RemoveOrdered(q[1..], x, past);
        forall y | y in Remove(q[1..], x) ensures LastSend(past, q[0]) < LastSend(past, y) {
          var k :| 1 <= k < |q| && q[k] == y;
        }
        ConsOrdered(q[0], Remove(q[1..], x), past);
      }
    }
  }

  lemma ConsOrdered(x: int, q: seq<int>, past: seq<Event>)
    requires OrderedQueue(q, past) && 0 <= LastSend(past, x)
    requires forall y :: y in q ==> LastSend(past, x) < LastSend(past, y)
    ensures OrderedQueue([x] + q, past)
  {
    hide LastSend;
    assert forall i :: 0 <= i < |q| ==> q[i] in q;
  }

  /** Who is in a queue does not act, so that its last send stays what it was. */
  lemma QueuedWaits(s: State, e: Event, past: seq<Event>, r: int, x: int)
    requires Inv(s) && Enabled(s, e) && IsPid(r) && x in s.queues[r]
    ensures LastSend(past + [e], x) == LastSend(past, x)
  {
    assert QueueOk(s, r) && (past + [e])[..|past|] == past;
  }

  lemma StillOrdered(s: State, e: Event, past: seq<Event>, r: int)
    requires Inv(s) && Enabled(s, e) && IsPid(r) && OrderedQueue(s.queues[r], past)
    ensures OrderedQueue(s.queues[r], past + [e])
  {
    hide LastSend, Enabled;
    var q := s.queues[r];
    forall i | 0 <= i < |q| ensures LastSend(past + [e], q[i]) == LastSend(past, q[i]) {
      QueuedWaits(s, e, past, r, q[i]);
    }
  }

  lemma StepOrdered(s: State, e: Event, past: seq<Event>)
    requires Inv(s) && Enabled(s, e) && Step(s, e).Ok? && Ordered(s, past)
    ensures Ordered(Step(s, e).state, past + [e])
  {
    assert Shape(s);
    hide LastSend, Inv;
    var t := Step(s, e).state;
    forall r | IsPid(r) ensures OrderedQueue(t.queues[r], past + [e]) {
      StillOrdered(s, e, past, r);
      var q := s.queues[r];
      if e.Send? && t.queues[r] == q + [e.p] {
        SentLast(s, e, past, r);
      } else if e.Receive? && r == e.p && Candidate(s, r, e.src).Some? {
        RemoveOrdered(q, Candidate(s, r, e.src).value, past + [e]);
      }
    }
  }

  lemma SentLast(s: State, e: Event, past: seq<Event>, r: int)
    requires Inv(s) && e.Send? && Enabled(s, e) && IsPid(r) && OrderedQueue(s.queues[r], past + [e])
    ensures OrderedQueue(s.queues[r] + [e.p], past + [e])
  {
    var es, q := past + [e], s.queues[r];
    assert LastSend(es, e.p) == |past|;
    forall i | 0 <= i < |q| ensures LastSend(es, q[i]) < |past| {
      assert q[i] in q;
      QueuedWaits(s, e, past, r, q[i]);
    }
  }

  lemma Regroup<T>(past: seq<T>, es: seq<T>)
    requires es != []
    ensures past + [es[0]] + es[1..] == past + es
  {
  }

  /** In every state of every run from empty queues, every queue is in the order of the sends. */
  lemma {:induction false} RunOrdered(s: State, past: seq<Event>, es: seq<Event>, t: State)
    requires Inv(s) && RunTo(s, es, t) && Shape(t) && Ordered(s, past)
    ensures Ordered(t, past + es)
    decreases |es|
  {
    assert Shape(s);
    hide Ordered, OrderedQueue, LastSend, Inv, Step, CanOccur, Unblocked;
    if es == [] {
      assert past + es == past;
    } else {
      StepKeeps(s, es[0]);
      StepOrdered(s, es[0], past);
      RunOrdered(Step(s, es[0]).state, past + [es[0]], es[1..], t);
      Regroup(past, es);
    }
  }

  /** First come, first served: in every run from boot, whatever else the receiver receives, a receive from ANY
      takes the sender that has been blocked on it the longest. */
  lemma ArrivalOrder(mem: map<Addr, Message>, es: seq<Event>, t: State, r: int, c: int, x: int)
    requires RunTo(Boot(mem), es, t) && Shape(t) && IsPid(r)
    requires Candidate(t, r, ANY) == Some(c) && x in t.queues[r] && x != c
    ensures 0 <= LastSend(es, c) < LastSend(es, x)
  {
    hide Ordered, LastSend, Inv;
    BootInv(mem);
    assert Ordered(Boot(mem), []) by { BootOrdered(mem); }
    RunOrdered(Boot(mem), [], es, t);
    assert [] + es == es;
    FirstOrdered(t, es, r, x);
  }

  lemma BootOrdered(mem: map<Addr, Message>)
    ensures Ordered(Boot(mem), [])
  {
  }

  lemma FirstOrdered(t: State, es: seq<Event>, r: int, x: int)
    requires Shape(t) && Ordered(t, es) && IsPid(r) && x in t.queues[r] && x != t.queues[r][0]
    ensures 0 <= LastSend(es, t.queues[r][0]) < LastSend(es, x)
  {
    hide LastSend;
    var q := t.queues[r];
    assert OrderedQueue(q, es);
    var j :| 0 <= j < |q| && q[j] == x;
  }

  // ---------------------------------------------------------------- interrupts

  /** The event may consume or overwrite the interrupt latched for `t`. */
  predicate TouchesLatch(e: Event, t: int) {
    (e.Receive? && e.p == t && (e.src == ANY || e.src == INTERRUPT)) || (e.Fork? && e.child == t)
  }

  /** A latched interrupt survives every run up to the task's next receive from ANY or INTERRUPT. */
  lemma {:induction false} LatchSurvives(s: State, es: seq<Event>, u: State, t: int)
    requires Inv(s) && RunTo(s, es, u) && Shape(u) && IsPid(t) && s.procs[t].hasInt
    requires forall e :: e in es ==> !TouchesLatch(e, t)
    ensures u.procs[t].hasInt
    decreases |es|
  {
    if es != [] {
      StepKeeps(s, es[0]);
      assert es[0] in es && forall e :: e in es[1..] ==> e in es;
      assert ReceiverOk(s, t);
      LatchSurvives(Step(s, es[0]).state, es[1..], u, t);
    }
  }

  /** No interrupt is lost: after `inform_int`, either the task was waiting and its buffer now
      holds HARD_INT, or the first receive from ANY or INTERRUPT that follows returns HARD_INT. */
  lemma InterruptNotLost(s: State, t: int, es: seq<Event>, u: State, src: int, m: int)
    requires Inv(s) && Enabled(s, Inform(t)) && Step(s, Inform(t)).Ok?
    requires RunTo(Step(s, Inform(t)).state, es, u) && Shape(u)
    requires forall e :: e in es ==> !TouchesLatch(e, t)
    requires Enabled(u, Receive(t, src, m)) && (src == ANY || src == INTERRUPT)
    ensures AwaitsInterrupt(s, t) ==>
      var v := Step(s, Inform(t)).state;
      var a := Addr(t, s.procs[t].msg.value);
      v.procs[t].flags == {} && v.mem[a].source == INTERRUPT && v.mem[a].kind == HARD_INT
    ensures !AwaitsInterrupt(s, t) ==>
      var r := Step(u, Receive(t, src, m));
      r.Ok? && r.state.mem[Addr(t, m)] == HARD_INT_MSG && !r.state.procs[t].hasInt
  {
    StepKeeps(s, Inform(t));
    assert ReceiverOk(s, t);
    if !AwaitsInterrupt(s, t) {
      LatchSurvives(Step(s, Inform(t)).state, es, u, t);
    }
  }
}
