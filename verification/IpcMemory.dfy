/** What the rendezvous protocol does to message buffers and process slots, buffer by buffer and slot by slot: what
    every event changes, and that it changes nothing else. */
module IpcMemory {
  import opened Const
  import opened Ipc
  import opened IpcRuns

  // ---------------------------------------------------------------- buffers

  /** `dest` waits for `p` or for anybody, and `a` is the buffer it has named. */
  predicate Awaits(s: State, dest: int, p: int, a: Addr)
    requires Shape(s)
  {
    && IsPid(dest) && Receiving in s.procs[dest].flags
    && (s.procs[dest].recvfrom == p || s.procs[dest].recvfrom == ANY)
    && a.pid == dest && s.procs[dest].msg == Some(a.va)
  }

  /** The message that a receive of `p` from `src` takes is the one at `b`: that of the first in line, or of the
      process asked for. */
  predicate Takes(s: State, p: int, src: int, b: Addr)
    requires Shape(s) && IsPid(p)
  {
    && IsPid(b.pid) && s.procs[b.pid].msg == Some(b.va)
    && if src == ANY then s.queues[p] != [] && b.pid == s.queues[p][0]
       else b.pid == src && Sending in s.procs[src].flags && s.procs[src].sendto == p
  }

  /** The message of `p` with its pid in it. */
  function From(p: int, x: Message): Message { Message(p, x.kind, x.payload) }

  /** A send puts the message, with the sender's pid in it, into the buffer of a receiver that awaits it. Of all
      other buffers only the sender's own changes, by that pid. */
  lemma SendMemory(s: State, p: int, dest: int, m: int, a: Addr)
    requires Shape(s) && CanOccur(s, Send(p, dest, m)) && Step(s, Send(p, dest, m)).Ok? && a in s.mem
    ensures var t := Step(s, Send(p, dest, m)).state;
      a in t.mem &&
      t.mem[a] == if Awaits(s, dest, p, a) || a == Addr(p, m) then From(p, s.mem[Addr(p, m)]) else s.mem[a]
  {
    hide ReachesPid;
  }

  /** A receive changes the buffer of the receiver and no other: it gets the latched interrupt, or else the message of
      the sender it takes, or, when it blocks, its own pid. */
  lemma ReceiveMemory(s: State, p: int, src: int, m: int, a: Addr, b: Addr)
    requires Shape(s) && CanOccur(s, Receive(p, src, m)) && Step(s, Receive(p, src, m)).Ok? && a in s.mem
    ensures var t := Step(s, Receive(p, src, m)).state;
      && a in t.mem && Addr(p, m) in t.mem && (a != Addr(p, m) ==> t.mem[a] == s.mem[a])
      && if s.procs[p].hasInt && (src == ANY || src == INTERRUPT)
         then t.mem[Addr(p, m)] == Message(-10, 1, [])
         else if Takes(s, p, src, b) then b in s.mem && t.mem[Addr(p, m)] == s.mem[b]
         else (forall c :: !Takes(s, p, src, c)) ==> t.mem[Addr(p, m)] == From(p, s.mem[Addr(p, m)])
  {
    var c := Candidate(s, p, src);
    assert Candidate(Stamp(s, p, m), p, src) == c;
    if c.Some? && !TakesInterrupt(s, p, src) {
      assert IsPid(c.value) && s.procs[c.value].msg.Some?;
      assert Takes(s, p, src, Addr(c.value, s.procs[c.value].msg.value));
    }
  }

  /** An interrupt writes source and kind into the buffer of a task that waits for one, and nothing else. */
  lemma InformMemory(s: State, k: int, a: Addr)
    requires Shape(s) && CanOccur(s, Inform(k)) && Step(s, Inform(k)).Ok? && a in s.mem
    ensures var t := Step(s, Inform(k)).state;
      a in t.mem &&
      t.mem[a] == if Awaits(s, k, INTERRUPT, a) then Message(-10, 1, s.mem[a].payload) else s.mem[a]
  {
  }

  /** A fork gives the child the parent's buffers, and leaves those of everybody else. */
  lemma ForkMemory(s: State, p: int, c: int, a: Addr)
    requires Shape(s) && CanOccur(s, Fork(p, c)) && a in s.mem
    ensures var t := Step(s, Fork(p, c)).state;
      && (a.pid != c ==> a in t.mem && t.mem[a] == s.mem[a])
      && (a.pid == p ==> Addr(c, a.va) in t.mem && t.mem[Addr(c, a.va)] == s.mem[a])
  {
    var own := map b | b in s.mem && b.pid == p :: Addr(c, b.va) := s.mem[b];
    if a.pid == p { assert Addr(c, a.va) in own; }
  }

  /** The event may change buffer `a`: its owner writes it or traps with it, something is delivered to it, or its
      address space is replaced. */
  predicate Touches(s: State, e: Event, a: Addr)
    requires Shape(s)
  {
    match e
    case Send(p, dest, m) => a == Addr(p, m) || Awaits(s, dest, p, a)
    case Receive(p, _, m) => a == Addr(p, m)
    case Inform(k) => Awaits(s, k, INTERRUPT, a)
    case Write(p, m, _) => a == Addr(p, m)
    case Fork(_, c) => a.pid == c
    case _ => false
  }

  lemma StepMemory(s: State, e: Event, t: State, a: Addr)
    requires Shape(s) && Goes(s, e, t) && a in s.mem && !Touches(s, e, a)
    ensures a in t.mem && t.mem[a] == s.mem[a]
  {
    hide Awaits;
    match e
    case Send(p, dest, m) => SendMemory(s, p, dest, m, a);
    case Receive(p, src, m) => ReceiveMemory(s, p, src, m, a, a);
    case Inform(k) => InformMemory(s, k, a);
    case Fork(p, c) => ForkMemory(s, p, c, a);
    case _ =>
  }

  /** Over every run, whatever the memory manager does, a buffer changes only by what its owner writes and traps with,
      by deliveries to it, by interrupts for it, and by a copy over its address space. */
  lemma {:induction false} RunMemory(run: seq<State>, es: seq<Event>, n: nat, a: Addr)
    requires AnyRun(run, es) && n <= |es| && a in run[0].mem
    requires forall i :: 0 <= i < n ==> !Touches(run[i], es[i], a)
    ensures a in run[n].mem && run[n].mem[a] == run[0].mem[a]
  {
    hide Goes, Touches;
    if n > 0 {
      RunMemory(run, es, n - 1, a);
      assert Goes(run[n - 1], es[n - 1], run[n - 1 + 1]);
      StepMemory(run[n - 1], es[n - 1], run[n], a);
    }
  }

  /** A message that has been posted stays as it is until it is taken: nothing that happens to others, and nothing the
      blocked sender could do, changes it. */
  lemma PostedStays(s: State, e: Event, t: State, p: int)
    requires Inv(s) && Enabled(s, e) && Step(s, e) == Ok(t) && IsPid(p)
    requires Sending in s.procs[p].flags && Sending in t.procs[p].flags
    ensures s.procs[p].msg.Some? && t.procs[p].msg == s.procs[p].msg && t.procs[p].sendto == s.procs[p].sendto
    ensures var a := Addr(p, s.procs[p].msg.value); a in s.mem && a in t.mem && t.mem[a] == s.mem[a]
  {
    assert SenderOk(s, p);
    var a := Addr(p, s.procs[p].msg.value);
    assert !Touches(s, e, a);
    StepMemory(s, e, t, a);
    if e.Receive? { assert QueueOk(s, e.p); }
  }

  // ---------------------------------------------------------------- slots

  /** The slots that an event may change. */
  predicate Acts(s: State, e: Event, q: int)
    requires Shape(s) && IsPid(q)
  {
    match e
    case Send(p, dest, _) => q == p || q == dest
    case Receive(p, src, _) =>
      q == p || (if src == ANY && IsPid(p) then s.queues[p] != [] && q == s.queues[p][0] else q == src)
    case Inform(k) => q == k
    case Write(_, _, _) => false
    case Mark(p, _) => q == p
    case Unmark(p) => q == p
    case Free(p) => q == p
    case Fork(_, c) => q == c
    case Overwrite => q == INIT
  }

  lemma StepSlots(s: State, e: Event, t: State, q: int)
    requires Shape(s) && Goes(s, e, t) && IsPid(q) && !Acts(s, e, q)
    ensures t.procs[q] == s.procs[q]
  {
    hide ReachesPid;
  }

  /** An interrupt is latched by `inform_int` for a task that does not wait for it, or copied by a fork, and in no other
      way; and only a receive that may take it takes it. */
  lemma StepLatch(s: State, e: Event, t: State, q: int)
    requires Shape(s) && Goes(s, e, t) && IsPid(q)
    ensures t.procs[q].hasInt ==
      match e
      case Inform(k) =>
        if k != q then s.procs[q].hasInt
        else !(Receiving in s.procs[q].flags && (s.procs[q].recvfrom == INTERRUPT || s.procs[q].recvfrom == ANY))
      case Receive(p, src, _) => s.procs[q].hasInt && !(p == q && (src == ANY || src == INTERRUPT))
      case Fork(p, c) => if c == q then s.procs[p].hasInt else s.procs[q].hasInt
      case _ => s.procs[q].hasInt
  {
    hide ReachesPid;
  }

  /** Who waits for a child, is dead or is free: only the memory manager's own events change that, and each of them
      exactly the flag it is about. */
  lemma StepKinds(s: State, e: Event, t: State, q: int, k: Flag)
    requires Shape(s) && Goes(s, e, t) && IsPid(q) && k in {Waiting, Hanging, FreeSlot}
    ensures k in t.procs[q].flags <==>
      match e
      case Mark(p, f) => k in s.procs[q].flags || (p == q && f == k)
      case Unmark(p) => k in s.procs[q].flags && !(p == q && k == Waiting)
      case Free(p) => if p == q then k == FreeSlot else k in s.procs[q].flags
      case Fork(p, c) => if c == q then k in s.procs[p].flags else k in s.procs[q].flags
      case Overwrite => if q == INIT then k != Waiting else k in s.procs[q].flags
      case _ => k in s.procs[q].flags
  {
    hide ReachesPid;
  }

  /** Who blocks and who wakes. A send blocks its caller or wakes its receiver, a receive blocks its caller or wakes
      the sender it takes, an interrupt wakes the task that waits for it. */
  lemma StepBlocks(s: State, e: Event, t: State, q: int)
    requires Inv(s) && Enabled(s, e) && Step(s, e) == Ok(t) && IsPid(q)
    ensures Sending in t.procs[q].flags <==>
      match e
      case Send(p, dest, m) => Sending in s.procs[q].flags || (p == q && !ReceivesFrom(s, dest, p))
      case Receive(p, src, m) => Sending in s.procs[q].flags &&
        !(!(s.procs[p].hasInt && (src == ANY || src == INTERRUPT)) && s.procs[q].sendto == p
          && (q == src || (src == ANY && q == s.queues[p][0])))
      case Fork(_, c) => q != c && Sending in s.procs[q].flags
      case _ => Sending in s.procs[q].flags
    ensures Receiving in t.procs[q].flags <==>
      match e
      case Send(p, dest, m) => Receiving in s.procs[q].flags && !(q == dest && ReceivesFrom(s, dest, p))
      case Receive(p, src, m) => Receiving in s.procs[q].flags ||
        (q == p && !(s.procs[p].hasInt && (src == ANY || src == INTERRUPT))
         && (if src == ANY then s.queues[p] == []
             else !(IsPid(src) && Sending in s.procs[src].flags && s.procs[src].sendto == p)))
      case Inform(k) => Receiving in s.procs[q].flags &&
        !(q == k && (s.procs[q].recvfrom == INTERRUPT || s.procs[q].recvfrom == ANY))
      case Free(p) => q != p && Receiving in s.procs[q].flags
      case Fork(p, c) => if q == c then Receiving in s.procs[p].flags else Receiving in s.procs[q].flags
      case _ => Receiving in s.procs[q].flags
  {
    hide ReachesPid;
    assert SenderOk(s, q);
    match e
    case Receive(p, src, m) =>
      assert QueueOk(s, p);
    case Fork(p, c) =>
      assert SenderOk(s, c);
    case _ =>
  }

  /** `dest` waits for `p` or for anybody. */
  predicate ReceivesFrom(s: State, dest: int, p: int)
    requires Shape(s)
  {
    IsPid(dest) && Receiving in s.procs[dest].flags && (s.procs[dest].recvfrom == p || s.procs[dest].recvfrom == ANY)
  }
}
