/** The rendezvous protocol of `kernel/proc.c` as a step machine. One call of `sys_sendrec` or
    `inform_int` is one atomic step; a `panic` or a failed `assert` ends the run. The intrusive
    sender lists appear here as sequences of pids in arrival order; `Kernel` proves that the
    linked lists of the process table are those sequences. */
module Ipc {
  import opened Const

  /** A MESSAGE; `payload` is the union, [] standing for the zeroed one of `reset_msg`. */
  datatype Message = Message(source: int, kind: int, payload: seq<int>)

  /** A buffer of a process: its pid and the virtual address inside it. */
  datatype Addr = Addr(pid: int, va: int)

  datatype Proc = Proc(flags: Flags, msg: Option<int>, recvfrom: int, sendto: int, hasInt: bool)

  datatype State = State(procs: seq<Proc>, queues: seq<seq<int>>, mem: map<Addr, Message>)

  datatype Outcome = Ok(state: State) | Deadlock | AssertFailed

  datatype Event =
    | Send(p: int, dest: int, m: int)
    | Receive(p: int, src: int, m: int)
    | Inform(task: int)
    | Write(p: int, m: int, content: Message)  // a running process fills one of its buffers
    | Mark(p: int, flag: Flag)                 // the memory manager sets WAITING or HANGING
    | Unmark(p: int)                           // ... clears WAITING
    | Free(p: int)                             // ... frees the slot
    | Fork(parent: int, child: int)            // ... copies a slot and its address space
    | Overwrite                                // ... assigns ~WAITING to the flags of INIT (mm/forkexit.c:135)

  const RESET_MSG := Message(0, 0, [])
  const HARD_INT_MSG := Message(INTERRUPT, HARD_INT, [])

  predicate IsPid(p: int) { 0 <= p < NR_SLOTS }

  predicate Shape(s: State) { |s.procs| == NR_SLOTS && |s.queues| == NR_SLOTS }

  predicate IsSending(s: State, p: int)
    requires Shape(s)
  {
    IsPid(p) && Sending in s.procs[p].flags
  }

  predicate IsReceiving(s: State, p: int)
    requires Shape(s)
  {
    IsPid(p) && Receiving in s.procs[p].flags
  }

  // ---------------------------------------------------------------- wait-for graph

  /** The process reached from `a` by following at most `k` SENDING edges. */
  function Hop(s: State, a: int, k: nat): int
    requires Shape(s)
    decreases k
  {
    if k == 0 || !IsSending(s, a) then a else Hop(s, s.procs[a].sendto, k - 1)
  }

  /** `b` lies on the chain of blocked senders that starts at `a`. */
  ghost predicate ReachesPid(s: State, a: int, b: int)
    requires Shape(s)
  {
    exists k: nat :: Hop(s, a, k) == b
  }

  /** `rank` strictly decreases along every SENDING edge. */
  ghost predicate Ranked(s: State, rank: seq<nat>)
    requires Shape(s)
  {
    |rank| == NR_SLOTS &&
    forall p :: IsSending(s, p) ==> IsPid(s.procs[p].sendto) && rank[s.procs[p].sendto] < rank[p]
  }

  ghost predicate Acyclic(s: State)
    requires Shape(s)
  {
    exists rank :: Ranked(s, rank)
  }

  // ---------------------------------------------------------------- steps

  /** The receiver is waiting for exactly this sender, or for anybody. */
  predicate CanTake(s: State, dest: int, p: int)
    requires Shape(s) && IsPid(dest)
  {
    IsReceiving(s, dest) && (s.procs[dest].recvfrom == p || s.procs[dest].recvfrom == ANY)
  }

  /** `msg_send` (lines 20-74). */
  ghost function SendStep(s: State, p: int, dest: int, m: int): Outcome
    requires Shape(s) && IsPid(p) && IsPid(dest) && p != dest && Addr(p, m) in s.mem
  {
    var d := s.procs[dest];
    if ReachesPid(s, dest, p) then Deadlock
    else if CanTake(s, dest, p) then
      if d.msg.None? || d.flags != {Receiving} then AssertFailed
      else
        Ok(s.(procs := s.procs[dest := d.(flags := d.flags - {Receiving}, msg := None, recvfrom := NO_TASK)],
              mem := s.mem[Addr(dest, d.msg.value) := s.mem[Addr(p, m)]]))
    else
      Ok(s.(procs := s.procs[p := s.procs[p].(flags := s.procs[p].flags + {Sending}, sendto := dest, msg := Some(m))],
            queues := s.queues[dest := s.queues[dest] + [p]]))
  }

  /** The sender that a receive of `p` from `src` takes now, if any (lines 103-143). */
  function Candidate(s: State, p: int, src: int): Option<int>
    requires Shape(s) && IsPid(p)
  {
    if src == ANY then
      if s.queues[p] == [] then None else Some(s.queues[p][0])
    else if IsSending(s, src) && s.procs[src].sendto == p then Some(src)
    else None
  }

  /** `q` without the first occurrence of `x`. */
  function Remove(q: seq<int>, x: int): seq<int> {
    if q == [] then [] else if q[0] == x then q[1..] else [q[0]] + Remove(q[1..], x)
  }

  /** A receive by `p` consumes the latched interrupt. */
  predicate TakesInterrupt(s: State, p: int, src: int)
    requires Shape(s) && IsPid(p)
  {
    s.procs[p].hasInt && (src == ANY || src == INTERRUPT)
  }

  /** `msg_receive` (lines 76-178). */
  function ReceiveStep(s: State, p: int, src: int, m: int): Outcome
    requires Shape(s) && IsPid(p)
  {
    var r := s.procs[p];
    if TakesInterrupt(s, p, src) then
      Ok(s.(procs := s.procs[p := r.(hasInt := false)], mem := s.mem[Addr(p, m) := HARD_INT_MSG]))
    else
      match Candidate(s, p, src)
      case Some(from) =>
        if !IsPid(from) || s.procs[from].flags != {Sending} || s.procs[from].msg.None? ||
           Addr(from, s.procs[from].msg.value) !in s.mem then AssertFailed
        else
          var f := s.procs[from];
          Ok(State(s.procs[from := f.(flags := f.flags - {Sending}, msg := None, sendto := NO_TASK)],
                   s.queues[p := Remove(s.queues[p], from)],
                   s.mem[Addr(p, m) := s.mem[Addr(from, f.msg.value)]]))
      case None =>
        if r.hasInt then AssertFailed  // line 175
        else Ok(s.(procs := s.procs[p := r.(flags := r.flags + {Receiving}, msg := Some(m), recvfrom := src)]))
  }

  /** The task is blocked on ANY or INTERRUPT, so an interrupt wakes it at once. */
  predicate AwaitsInterrupt(s: State, t: int)
    requires Shape(s)
  {
    IsReceiving(s, t) && (s.procs[t].recvfrom == INTERRUPT || s.procs[t].recvfrom == ANY)
  }

  /** `inform_int` (lines 303-323). */
  function InformStep(s: State, t: int): Outcome
    requires Shape(s) && IsPid(t)
  {
    var p := s.procs[t];
    if AwaitsInterrupt(s, t) then
      if p.flags != {Receiving} || p.msg.None? || Addr(t, p.msg.value) !in s.mem then AssertFailed
      else
        var a := Addr(t, p.msg.value);
        Ok(s.(procs := s.procs[t := p.(flags := p.flags - {Receiving}, msg := None, recvfrom := NO_TASK,
                                       hasInt := false)],
              mem := s.mem[a := s.mem[a].(source := INTERRUPT, kind := HARD_INT)]))
    else Ok(s.(procs := s.procs[t := p.(hasInt := true)]))
  }

  /** `sys_sendrec` writes the caller's pid into the buffer before anything else (line 284). */
  function Stamp(s: State, p: int, m: int): State
    requires Addr(p, m) in s.mem
  {
    s.(mem := s.mem[Addr(p, m) := s.mem[Addr(p, m)].(source := p)])
  }

  /** The child gets a copy of the parent's address space. */
  function CopySpace(mem: map<Addr, Message>, parent: int, child: int): map<Addr, Message> {
    (map a | a in mem && a.pid != child :: mem[a]) +
    (map a | a in mem && a.pid == parent :: Addr(child, a.va) := mem[a])
  }

  ghost predicate Runnable(s: State, p: int)
    requires Shape(s)
  {
    IsPid(p) && s.procs[p].flags == {}
  }

  /** When an event can occur: only a runnable process traps into the kernel, with a mapped buffer
      and a peer that passes the assertions of `sys_sendrec` (lines 277-285). The memory manager
      marks, frees and copies whoever asked it to, and copies into a free slot. */
  ghost predicate CanOccur(s: State, e: Event)
    requires Shape(s)
  {
    match e
    case Send(p, dest, m) => Runnable(s, p) && IsPid(dest) && p != dest && Addr(p, m) in s.mem
    case Receive(p, src, m) =>
      Runnable(s, p) && (IsPid(src) || src == ANY || src == INTERRUPT) && src != p && Addr(p, m) in s.mem
    case Inform(t) => IsPid(t) && FreeSlot !in s.procs[t].flags
    case Write(p, m, c) => Runnable(s, p)
    case Mark(p, f) => IsPid(p) && f in {Waiting, Hanging}
    case Unmark(p) => IsPid(p)
    case Free(p) => IsPid(p)
    case Fork(a, c) => ForkGuard(s, a, c)
    case Overwrite => Waiting in s.procs[INIT].flags
  }

  /** What `mm/forkexit.c` does not test: the process it marks, frees or copies is not blocked sending, and
      nobody is blocked on either slot of a copy. The overwrite makes INIT look blocked in any case. */
  predicate Unblocked(s: State, e: Event)
    requires Shape(s)
  {
    match e
    case Mark(p, _) => !IsSending(s, p)
    case Free(p) => !IsSending(s, p)
    case Fork(a, c) => !IsSending(s, a) && IsPid(a) && IsPid(c) && s.queues[a] == [] && s.queues[c] == []
    case Overwrite => false
    case _ => true
  }

  ghost predicate Enabled(s: State, e: Event)
    requires Shape(s)
  {
    CanOccur(s, e) && Unblocked(s, e)
  }

  /** The event blocks the process that asks for it. */
  ghost predicate Blocks(s: State, e: Event)
    requires Shape(s)
  {
    match e
    case Send(p, dest, m) => IsPid(dest) && !ReachesPid(s, dest, p) && !CanTake(s, dest, p)
    case Receive(p, src, m) => IsPid(p) && !TakesInterrupt(s, p, src) && Candidate(s, p, src) == None
    case _ => false
  }

  predicate ForkGuard(s: State, parent: int, child: int)
    requires Shape(s)
  {
    IsPid(parent) && IsPid(child) && s.procs[child].flags == {FreeSlot} &&
    FreeSlot !in s.procs[parent].flags
  }

  /** `*p = proc_table[pid]` (mm/forkexit.c:36): the whole slot is copied, the list heads included. */
  function ForkStep(s: State, parent: int, child: int): State
    requires Shape(s) && IsPid(parent) && IsPid(child)
  {
    State(s.procs[child := s.procs[parent]], s.queues[child := s.queues[parent]], CopySpace(s.mem, parent, child))
  }

  ghost function Step(s: State, e: Event): (r: Outcome)
    requires Shape(s) && CanOccur(s, e)
    ensures r.Ok? ==> Shape(r.state)
  {
    match e
    case Send(p, dest, m) => SendStep(Stamp(s, p, m), p, dest, m)
    case Receive(p, src, m) => ReceiveStep(Stamp(s, p, m), p, src, m)
    case Inform(t) => InformStep(s, t)
    case Write(p, m, c) => Ok(s.(mem := s.mem[Addr(p, m) := c]))
    case Mark(p, f) => Ok(SetFlags(s, p, s.procs[p].flags + {f}))
    case Unmark(p) => Ok(SetFlags(s, p, s.procs[p].flags - {Waiting}))
    case Free(p) => Ok(SetFlags(s, p, {FreeSlot}))
    case Fork(a, c) => Ok(ForkStep(s, a, c))
    case Overwrite => Ok(SetFlags(s, INIT, ALL_FLAGS - {Waiting}))
  }

  function SetFlags(s: State, p: int, f: Flags): State
    requires Shape(s) && IsPid(p)
  {
    s.(procs := s.procs[p := s.procs[p].(flags := f)])
  }

  // ---------------------------------------------------------------- the invariant

  /** A process blocked in a send waits on a live request: it is queued at its receiver. */
  ghost predicate SenderOk(s: State, p: int)
    requires Shape(s) && IsPid(p)
  {
    var q := s.procs[p];
    Sending in q.flags ==>
      && q.flags == {Sending} && IsPid(q.sendto) && q.sendto != p && q.recvfrom == NO_TASK
      && q.msg.Some? && Addr(p, q.msg.value) in s.mem && p in s.queues[q.sendto]
  }

  /** A process blocked in a receive has a buffer, and nothing it waits for is available:
      no matching sender is queued on it and no interrupt is latched. */
  ghost predicate ReceiverOk(s: State, p: int)
    requires Shape(s) && IsPid(p)
  {
    var q := s.procs[p];
    Receiving in q.flags ==>
      && FreeSlot !in q.flags && q.sendto == NO_TASK
      && (IsPid(q.recvfrom) || q.recvfrom == ANY || q.recvfrom == INTERRUPT)
      && q.msg.Some? && Addr(p, q.msg.value) in s.mem
      && (q.recvfrom == ANY ==> s.queues[p] == [])
      && q.recvfrom !in s.queues[p]
      && (q.recvfrom == ANY || q.recvfrom == INTERRUPT ==> !q.hasInt)
  }

  ghost predicate IdleOk(s: State, p: int)
    requires Shape(s) && IsPid(p)
  {
    var q := s.procs[p];
    {Sending, Receiving, FreeSlot} !! q.flags ==>
      q.msg.None? && q.recvfrom == NO_TASK && q.sendto == NO_TASK
  }

  predicate Distinct(q: seq<int>) {
    forall i, j :: 0 <= i < j < |q| ==> q[i] != q[j]
  }

  /** The queue of `r` holds, without repeats, processes that are blocked sending to `r`. */
  ghost predicate QueueOk(s: State, r: int)
    requires Shape(s) && IsPid(r)
  {
    Distinct(s.queues[r]) &&
    forall x :: x in s.queues[r] ==> IsSending(s, x) && s.procs[x].sendto == r
  }

  ghost predicate Inv(s: State) {
    && Shape(s)
    && (forall p :: IsPid(p) ==> SenderOk(s, p))
    && (forall p :: IsPid(p) ==> ReceiverOk(s, p))
    && (forall p :: IsPid(p) ==> IdleOk(s, p))
    && (forall p :: IsPid(p) ==> QueueOk(s, p))
    && Acyclic(s)
  }
}
