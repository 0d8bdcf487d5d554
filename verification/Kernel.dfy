/** `kernel/proc.c` and `kernel/clock.c` over the process table itself: linked sender lists threaded
    through the slots, pointer-chasing loops, in-place updates. Every routine is proved to be the
    corresponding step of `Ipc` and `Scheduler`. */
module Kernel {
  import opened Const
  import Ipc
  import opened IpcInvariant
  import IpcRuns
  import S = Scheduler

  /** A slot of `proc_table`; `None` is the null pointer. */
  datatype Slot = Slot(ticks: int, priority: int, flags: Flags, msg: Option<int>, recvfrom: int, sendto: int,
                       hasInt: bool, qSending: Option<int>, nextSending: Option<int>)

  /** What became of a kernel call: it returned, panicked, failed an assertion, or went on outside the process table. */
  datatype Status = Done | Panicked | Failed | Astray

  function ProcOf(x: Slot): Ipc.Proc { Ipc.Proc(x.flags, x.msg, x.recvfrom, x.sendto, x.hasInt) }

  function ProcsOf(t: seq<Slot>): (r: seq<Ipc.Proc>)
    ensures |r| == |t|
  {
    seq(|t|, i requires 0 <= i < |t| => ProcOf(t[i]))
  }

  function TaskOf(x: Slot): S.Task { S.Task(x.ticks, x.priority, x.flags == {}) }

  function TasksOf(t: seq<Slot>): (r: seq<S.Task>)
    ensures |r| == |t|
  {
    seq(|t|, i requires 0 <= i < |t| => TaskOf(t[i]))
  }

  // ---------------------------------------------------------------- the intrusive lists

  /** The link that points at element `i` of `q`: null past the end. */
  function Link(q: seq<int>, i: nat): Option<int> {
    if i < |q| then Some(q[i]) else None
  }

  predicate LinkAt(t: seq<Slot>, q: seq<int>, i: nat)
    requires i < |q|
  {
    0 <= q[i] < |t| && t[q[i]].nextSending == Link(q, i + 1)
  }

  /** The list headed by slot `r` visits exactly `q`. */
  predicate Chain(t: seq<Slot>, r: int, q: seq<int>)
    requires 0 <= r < |t|
  {
    t[r].qSending == Link(q, 0) && forall i :: 0 <= i < |q| ==> LinkAt(t, q, i)
  }

  /** Every receiver's list visits its queue, and a slot that is not sending links to nothing. */
  predicate Linked(t: seq<Slot>, queues: seq<seq<int>>) {
    && |t| == |queues|
    && (forall r :: 0 <= r < |t| ==> Chain(t, r, queues[r]))
    && (forall p :: 0 <= p < |t| && Sending !in t[p].flags ==> t[p].nextSending == None)
  }

  /** The lists survive a change of fields they do not use. */
  lemma LinkedAgree(t: seq<Slot>, u: seq<Slot>, queues: seq<seq<int>>)
    requires Linked(t, queues) && |u| == |t|
    requires forall p :: 0 <= p < |t| ==>
      u[p].qSending == t[p].qSending && u[p].nextSending == t[p].nextSending &&
      (Sending in t[p].flags ==> Sending in u[p].flags)
    ensures Linked(u, queues)
  {
    forall r | 0 <= r < |u| ensures Chain(u, r, queues[r]) {
      assert Chain(t, r, queues[r]);
      forall i | 0 <= i < |queues[r]| ensures LinkAt(u, queues[r], i) { assert LinkAt(t, queues[r], i); }
    }
  }

  lemma {:induction false} RemoveAt(q: seq<int>, k: nat)
    requires Ipc.Distinct(q) && k < |q|
    ensures Ipc.Remove(q, q[k]) == q[..k] + q[k + 1..]
  {
    if k > 0 {
      assert q[0] != q[k];
      RemoveAt(q[1..], k - 1);
      assert q[1..][..k - 1] == q[1..k] && q[1..][k - 1 + 1..] == q[k + 1..];
      assert q[..k] == [q[0]] + q[1..k];
    }
  }

  /** Queues of different receivers share nobody, and nobody is in a queue twice. */
  predicate Separate(q: seq<seq<int>>) {
    && (forall r :: 0 <= r < |q| ==> Ipc.Distinct(q[r]))
    && (forall r, r', x :: 0 <= r < |q| && 0 <= r' < |q| && x in q[r] && x in q[r'] ==> r == r')
  }

  lemma QueuesSeparate(s: Ipc.State)
    requires Ipc.Inv(s)
    ensures Separate(s.queues)
    ensures forall r, x :: 0 <= r < |s.queues| && x in s.queues[r] ==> Ipc.IsSending(s, x)
  {
    forall r | 0 <= r < |s.queues| ensures Ipc.Distinct(s.queues[r]) { assert Ipc.QueueOk(s, r); }
    forall r, r', x | 0 <= r < |s.queues| && 0 <= r' < |s.queues| && x in s.queues[r] && x in s.queues[r']
      ensures r == r'
    {
      assert Ipc.QueueOk(s, r) && Ipc.QueueOk(s, r');
    }
    forall r, x | 0 <= r < |s.queues| && x in s.queues[r] ensures Ipc.IsSending(s, x) {
      assert Ipc.QueueOk(s, r);
    }
  }

  /** Hanging `p` on the tail of `dest`'s list appends it to `dest`'s queue. */
  lemma LinkedAppend(q: seq<seq<int>>, t: seq<Slot>, u: seq<Slot>, p: int, dest: int)
    requires Separate(q) && Linked(t, q) && |u| == |t| && 0 <= p < |t| && 0 <= dest < |t|
    requires forall r :: 0 <= r < |q| ==> p !in q[r]
    requires t[p].nextSending == None
    requires forall x :: 0 <= x < |t| ==>
      && u[x].flags == (if x == p then t[x].flags + {Sending} else t[x].flags)
      && u[x].qSending == (if x == dest && q[dest] == [] then Some(p) else t[x].qSending)
      && u[x].nextSending == (if q[dest] != [] && x == q[dest][|q[dest]| - 1] then Some(p) else t[x].nextSending)
    requires q[dest] != [] ==> var last := q[dest][|q[dest]| - 1]; 0 <= last < |t| && Sending in t[last].flags
    ensures Linked(u, q[dest := q[dest] + [p]])
  {
    var q' := q[dest := q[dest] + [p]];
    forall r | 0 <= r < |u| ensures Chain(u, r, q'[r]) {
      assert Chain(t, r, q[r]);
      forall i | 0 <= i < |q[r]| ensures LinkAt(u, q'[r], i) {
        assert LinkAt(t, q[r], i) && q[r][i] in q[r];
        if q[dest] != [] { assert q[dest][|q[dest]| - 1] in q[dest]; }
      }
    }
  }

  /** Slot `x` after `p` has blocked sending to `dest`, whose queue was `q`. */
  function BlockedSlot(y: Slot, x: int, p: int, dest: int, m: int, q: seq<int>): Slot {
    Slot(y.ticks, y.priority,
         if x == p then y.flags + {Sending} else y.flags,
         if x == p then Some(m) else y.msg,
         y.recvfrom,
         if x == p then dest else y.sendto,
         y.hasInt,
         if x == dest && q == [] then Some(p) else y.qSending,
         if x == p then None else if q != [] && x == q[|q| - 1] then Some(p) else y.nextSending)
  }

  /** What a send that blocks does to the table, as the protocol and the scheduler see it. */
  lemma BlockedViews(t: seq<Slot>, u: seq<Slot>, p: int, dest: int, m: int, q: seq<int>)
    requires |t| == |u| && 0 <= p < |t|
    requires forall x :: 0 <= x < |t| ==> u[x] == BlockedSlot(t[x], x, p, dest, m, q)
    ensures ProcsOf(u) == ProcsOf(t)[p := ProcsOf(t)[p].(
      flags := ProcsOf(t)[p].flags + {Sending}, sendto := dest, msg := Some(m))]
    ensures TasksOf(u) == S.SetFlag(TasksOf(t), p, false)
  {
    assert Sending in u[p].flags;
  }

  /** ... and to the lists. */
  lemma BlockedLinks(s: Ipc.State, t: seq<Slot>, u: seq<Slot>, p: int, dest: int, m: int)
    requires Ipc.Inv(s) && |t| == |u| == NR_SLOTS && s.procs == ProcsOf(t) && Linked(t, s.queues)
    requires Ipc.Runnable(s, p) && Ipc.IsPid(dest) && p != dest
    requires forall x :: 0 <= x < |t| ==> u[x] == BlockedSlot(t[x], x, p, dest, m, s.queues[dest])
    ensures Linked(u, s.queues[dest := s.queues[dest] + [p]])
  {
    QueuesSeparate(s);
    assert s.procs[p] == ProcOf(t[p]);
    var q := s.queues[dest];
    if q != [] {
      var last := q[|q| - 1];
      assert last in q && Ipc.IsSending(s, last) && s.procs[last] == ProcOf(t[last]);
    }
    LinkedAppend(s.queues, t, u, p, dest);
  }

  /** `u` is `t` with the element `from` unhooked from the list of `p` at position `k`. */
  predicate Unhooked(t: seq<Slot>, u: seq<Slot>, q: seq<int>, p: int, k: nat)
    requires k < |q|
  {
    |u| == |t| && forall x :: 0 <= x < |t| ==>
      && u[x].qSending == (if x == p && k == 0 then Link(q, 1) else t[x].qSending)
      && u[x].nextSending == (if x == q[k] then None
                              else if k > 0 && x == q[k - 1] then Link(q, k + 1)
                              else t[x].nextSending)
  }

  lemma LinkAfterUnhook(t: seq<Slot>, u: seq<Slot>, q: seq<int>, p: int, k: nat, j: nat)
    requires k < |q| && Unhooked(t, u, q, p, k) && Ipc.Distinct(q) && j < |q| && j != k && LinkAt(t, q, j)
    ensures u[q[j]].nextSending == if j + 1 == k then Link(q, k + 1) else Link(q, j + 1)
  {
    var x := q[j];
    assert x != q[k] && (k > 0 && j != k - 1 ==> x != q[k - 1]);
    assert u[x].nextSending == if k > 0 && x == q[k - 1] then Link(q, k + 1) else t[x].nextSending;
  }

  lemma ChainRemove(t: seq<Slot>, u: seq<Slot>, q: seq<int>, p: int, k: nat)
    requires 0 <= p < |t| && Chain(t, p, q) && Ipc.Distinct(q) && k < |q| && Unhooked(t, u, q, p, k)
    ensures Chain(u, p, Ipc.Remove(q, q[k]))
  {
    RemoveAt(q, k);
    var q' := q[..k] + q[k + 1..];
    forall i | 0 <= i < |q'| ensures LinkAt(u, q', i) {
      var j := if i >= k then i + 1 else i;
      assert LinkAt(t, q, j) && q'[i] == q[j];
      LinkAfterUnhook(t, u, q, p, k, j);
    }
  }

  /** Unhooking the `k`-th element of `p`'s list removes it from `p`'s queue. */
  lemma LinkedRemove(q: seq<seq<int>>, t: seq<Slot>, u: seq<Slot>, p: int, k: nat)
    requires Separate(q) && Linked(t, q) && 0 <= p < |t| && k < |q[p]| && Unhooked(t, u, q[p], p, k)
    requires forall x :: 0 <= x < |t| ==> u[x].flags == (if x == q[p][k] then t[x].flags - {Sending} else t[x].flags)
    requires k > 0 ==> 0 <= q[p][k - 1] < |t| && Sending in t[q[p][k - 1]].flags
    ensures Linked(u, q[p := Ipc.Remove(q[p], q[p][k])])
  {
    var q' := q[p := Ipc.Remove(q[p], q[p][k])];
    ChainRemove(t, u, q[p], p, k);
    forall r | 0 <= r < |u| && r != p ensures Chain(u, r, q[r]) {
      assert Chain(t, r, q[r]);
      forall i | 0 <= i < |q[r]| ensures LinkAt(u, q[r], i) {
        assert LinkAt(t, q[r], i) && q[r][i] in q[r] && q[p][k] in q[p] && (k > 0 ==> q[p][k - 1] in q[p]);
      }
    }
  }

  /** Slot `x` after the `k`-th sender queued on `p`, `q` being the queue, has been taken. */
  function TakenSlot(y: Slot, x: int, p: int, q: seq<int>, k: nat): Slot
    requires k < |q|
  {
    Slot(y.ticks, y.priority,
         if x == q[k] then y.flags - {Sending} else y.flags,
         if x == q[k] then None else y.msg,
         y.recvfrom,
         if x == q[k] then NO_TASK else y.sendto,
         y.hasInt,
         if x == p && k == 0 then Link(q, 1) else y.qSending,
         if x == q[k] then None else if k > 0 && x == q[k - 1] then Link(q, k + 1) else y.nextSending)
  }

  lemma TakenViews(t: seq<Slot>, u: seq<Slot>, p: int, q: seq<int>, k: nat)
    requires |t| == |u| && k < |q| && 0 <= q[k] < |t| && t[q[k]].flags == {Sending}
    requires forall x :: 0 <= x < |t| ==> u[x] == TakenSlot(t[x], x, p, q, k)
    ensures ProcsOf(u) == ProcsOf(t)[q[k] := ProcsOf(t)[q[k]].(
      flags := ProcsOf(t)[q[k]].flags - {Sending}, msg := None, sendto := NO_TASK)]
    ensures TasksOf(u) == S.SetFlag(TasksOf(t), q[k], true)
  {
    assert u[q[k]].flags == {};
  }

  lemma TakenLinks(s: Ipc.State, t: seq<Slot>, u: seq<Slot>, p: int, k: nat)
    requires Ipc.Inv(s) && |t| == |u| == NR_SLOTS && s.procs == ProcsOf(t) && Linked(t, s.queues)
    requires Ipc.IsPid(p) && k < |s.queues[p]|
    requires forall x :: 0 <= x < |t| ==> u[x] == TakenSlot(t[x], x, p, s.queues[p], k)
    ensures Linked(u, s.queues[p := Ipc.Remove(s.queues[p], s.queues[p][k])])
  {
    QueuesSeparate(s);
    var q := s.queues[p];
    if k > 0 {
      var prev := q[k - 1];
      assert prev in q && Ipc.IsSending(s, prev) && s.procs[prev] == ProcOf(t[prev]);
    }
    LinkedRemove(s.queues, t, u, p, k);
  }

  lemma {:induction false} PidsAreFew(n: nat, seen: set<int>)
    requires forall x :: x in seen ==> 0 <= x < n
    ensures |seen| <= n
  {
    if n > 0 {
      PidsAreFew(n - 1, seen - {n - 1});
      assert |seen| <= |seen - {n - 1}| + 1 by {
        if n - 1 in seen { assert seen == (seen - {n - 1}) + {n - 1}; } else { assert seen == seen - {n - 1}; }
      }
    } else {
      assert forall x :: x !in seen;
      assert seen == {};
    }
  }

  /** Only tick counts differ. */
  predicate SameButTicks(t: seq<Slot>, u: seq<Slot>) {
    |t| == |u| && forall i :: 0 <= i < |t| ==> u[i] == t[i].(ticks := u[i].ticks)
  }

  lemma TicksDoNotMatter(t: seq<Slot>, u: seq<Slot>, queues: seq<seq<int>>)
    requires SameButTicks(t, u)
    ensures ProcsOf(u) == ProcsOf(t)
    ensures Linked(t, queues) ==> Linked(u, queues)
  {
    assert forall i :: 0 <= i < |t| ==> ProcsOf(u)[i] == ProcsOf(t)[i];
    if Linked(t, queues) { LinkedAgree(t, u, queues); }
  }

  /** What `schedule` makes of the table `t`: when nobody who can run has ticks left, everybody who can run gets his
      priority in ticks; nothing else changes; and `r` is the first of those who can run with the most ticks. */
  predicate Rescheduled(t: seq<Slot>, u: seq<Slot>, r: int) {
    && |u| == |t| && 0 <= r < |u| && u[r].flags == {} && u[r].ticks > 0
    && (forall q :: 0 <= q < |u| && u[q].flags == {} ==>
          u[q].ticks <= u[r].ticks && (q < r ==> u[q].ticks < u[r].ticks))
    && forall q :: 0 <= q < |t| ==>
         u[q] == t[q].(ticks := if Spent(t) && t[q].flags == {} then t[q].priority else t[q].ticks)
  }

  /** Nobody who can run has ticks left. */
  predicate Spent(t: seq<Slot>) { forall p :: 0 <= p < |t| && t[p].flags == {} ==> t[p].ticks <= 0 }

  lemma SchedulesTable(t: seq<Slot>, u: seq<Slot>, r: int)
    requires S.Schedules(TasksOf(t), TasksOf(u), r) && SameButTicks(t, u)
    ensures Rescheduled(t, u, r)
  {
    assert forall q :: 0 <= q < |t| ==> TasksOf(t)[q] == TaskOf(t[q]) && TasksOf(u)[q] == TaskOf(u[q]);
    assert Spent(t) <==> !S.HasCredit(TasksOf(t));
  }

  /** After a refill the pick is the first of those who can run with the greatest priority. */
  lemma RefillPick(t: seq<Slot>, u: seq<Slot>, r: int, q: int)
    requires Rescheduled(t, u, r) && Spent(t) && 0 <= q < |t| && t[q].flags == {}
    ensures t[q].priority <= t[r].priority && (q < r ==> t[q].priority < t[r].priority)
  {
    assert u[q].ticks == t[q].priority && u[r].ticks == t[r].priority;
  }

  /** A slot for which an interrupt has come: it wakes with its buffer given up if it waits for one, and else the
      interrupt is latched. */
  function Notified(x: Slot): Slot {
    if Receiving in x.flags && (x.recvfrom == INTERRUPT || x.recvfrom == ANY)
    then x.(flags := {}, msg := None, recvfrom := NO_TASK, hasInt := false)
    else x.(hasInt := true)
  }

  /** And the buffers: the one it waits with says that an interrupt has come. */
  function NotifiedBuffers(mem: map<Ipc.Addr, Ipc.Message>, x: Slot, task: int): map<Ipc.Addr, Ipc.Message> {
    if Receiving in x.flags && (x.recvfrom == INTERRUPT || x.recvfrom == ANY) && x.msg.Some?
       && Ipc.Addr(task, x.msg.value) in mem
    then mem[Ipc.Addr(task, x.msg.value) :=
               Ipc.Message(INTERRUPT, HARD_INT, mem[Ipc.Addr(task, x.msg.value)].payload)]
    else mem
  }

  /** The table after the charge and the key press of a clock interrupt (kernel/clock.c:19-23). */
  function Clocked(t: seq<Slot>, cur: int, key: bool): (u: seq<Slot>)
    requires 0 <= cur < |t| && TASK_TTY < |t|
    ensures |u| == |t|
  {
    var c := t[cur := t[cur].(ticks := if t[cur].ticks != 0 then t[cur].ticks - 1 else 0)];
    if key then c[TASK_TTY := Notified(c[TASK_TTY])] else c
  }

  /** The protocol step that a clock interrupt causes: an interrupt for the terminal task when a key
      has been pressed, otherwise none. */
  function KeyStep(s: Ipc.State, key: bool): Ipc.Outcome
    requires Ipc.Shape(s)
  {
    if key then Ipc.InformStep(s, TASK_TTY) else Ipc.Ok(s)
  }

  function KeyWakes(s: Ipc.State, key: bool): Option<int>
    requires Ipc.Shape(s)
  {
    if key && Ipc.AwaitsInterrupt(s, TASK_TTY) then Some(TASK_TTY) else None
  }

  /** Slot `i` after `kernel_main`. */
  function InitialSlot(i: int): Slot {
    if i >= NR_TASKS + NR_NATIVE_PROCS then Slot(0, 0, {FreeSlot}, None, 0, 0, false, None, None)
    else
      var prio := if i < NR_TASKS then 15 else 5;
      Slot(prio, prio, {}, None, NO_TASK, NO_TASK, false, None, None)
  }

  class Machine {
    const table: array<Slot>            // proc_table
    var ready: int                      // p_proc_ready
    var ticks: int                      // clock interrupts so far, wrapping at MAX_TICKS
    var keyPressed: bool
    var reenter: int                    // k_reenter: 0 while no interrupted kernel code is pending
    var mem: map<Ipc.Addr, Ipc.Message> // message buffers of all address spaces
    ghost var queues: seq<seq<int>>     // blocked senders of each receiver, in arrival order

    /** The machine as the protocol sees it. */
    ghost function View(): Ipc.State
      reads this, table
    {
      Ipc.State(ProcsOf(table[..]), queues, mem)
    }

    /** The machine as the scheduler sees it. */
    ghost function Sched(): S.Sched
      reads this, table
    {
      S.Sched(TasksOf(table[..]), ready)
    }

    ghost predicate Valid()
      reads this, table
    {
      table.Length == NR_SLOTS && Ipc.IsPid(ready) && Ipc.Inv(View()) && Linked(table[..], queues)
    }

    /** Should `p` block, somebody else can be scheduled. */
    ghost predicate OthersCanRun(p: int)
      reads this, table
    {
      Ipc.IsPid(p) && table.Length == NR_SLOTS && S.CanSchedule(S.SetFlag(TasksOf(table[..]), p, false))
    }

    /** `kernel_main` (kernel/main.c:27-110) over zeroed memory: tasks get 15 ticks, native processes
        5, every other slot is free. */
    constructor (buffers: map<Ipc.Addr, Ipc.Message>)
      ensures Valid() && View() == IpcRuns.Boot(buffers)
      ensures ready == 0 && ticks == 0 && reenter == 0
      ensures forall i :: 0 <= i < NR_SLOTS ==> table[i] == InitialSlot(i)
      ensures forall i :: 0 <= i < 5 ==> table[i].flags == {} && table[i].ticks == table[i].priority == 15
      ensures forall i :: 5 <= i < 9 ==> table[i].flags == {} && table[i].ticks == table[i].priority == 5
      ensures forall i :: 9 <= i < 37 ==> table[i].flags == {FreeSlot}
    {
      table := new Slot[NR_SLOTS](_ => Slot(0, 0, {}, None, 0, 0, false, None, None));
      new;
      for i := 0 to NR_SLOTS
        invariant forall k :: i <= k < NR_SLOTS ==> table[k] == Slot(0, 0, {}, None, 0, 0, false, None, None)
        invariant forall k :: 0 <= k < i ==> table[k] == InitialSlot(k)
      {
        if i >= NR_TASKS + NR_NATIVE_PROCS {
          table[i] := table[i].(flags := {FreeSlot});
          continue;
        }
        var prio := if i < NR_TASKS then 15 else 5;
        table[i] := table[i].(ticks := prio, priority := prio, flags := {}, msg := None,
                              recvfrom := NO_TASK, sendto := NO_TASK, hasInt := false,
                              qSending := None, nextSending := None);
      }
      reenter, ticks, keyPressed := 0, 0, false;
      ready := 0;
      mem := buffers;
      queues := seq(NR_SLOTS, i => []);
      IpcRuns.BootInv(buffers);
      assert View().procs == IpcRuns.Boot(buffers).procs;
      forall r | 0 <= r < NR_SLOTS ensures Chain(table[..], r, queues[r]) {
        assert table[r] == InitialSlot(r);
      }
    }

    /** One scan for the runnable process with the most ticks (proc.c:250-257). */
    method PickBest() returns (greatest: int)
      requires table.Length == NR_SLOTS
      modifies this`ready
      ensures greatest >= 0 && (greatest != 0 <==> S.HasCredit(TasksOf(table[..])))
      ensures greatest != 0 ==> S.IsPick(TasksOf(table[..]), ready)
    {
      ghost var now := TasksOf(table[..]);
      greatest := 0;
      for p := 0 to NR_SLOTS
        invariant greatest >= 0
        invariant forall q :: 0 <= q < p && now[q].runnable ==> now[q].ticks <= greatest
        invariant greatest > 0 ==> 0 <= ready < p && now[ready].runnable && now[ready].ticks == greatest
        invariant greatest > 0 ==> forall q :: 0 <= q < ready && now[q].runnable ==> now[q].ticks < greatest
      {
        assert now[p] == TaskOf(table[p]);
        if table[p].flags == {} {
          if table[p].ticks > greatest {
            greatest := table[p].ticks;
            ready := p;
          }
        }
      }
    }

    /** Every runnable process gets its priority in ticks (proc.c:266-270). */
    method RefillTicks()
      requires table.Length == NR_SLOTS
      modifies table
      ensures TasksOf(table[..]) == S.Refill(old(TasksOf(table[..]))) && SameButTicks(old(table[..]), table[..])
      ensures forall i :: 0 <= i < NR_SLOTS ==>
        table[i].ticks == if old(table[i]).flags == {} then old(table[i]).priority else old(table[i]).ticks
    {
      ghost var t := table[..];
      for p := 0 to NR_SLOTS
        invariant forall i :: 0 <= i < NR_SLOTS ==>
          table[i] == if i < p && t[i].flags == {} then t[i].(ticks := t[i].priority) else t[i]
      {
        if table[p].flags == {} {
          table[p] := table[p].(ticks := table[p].priority);
        }
      }
      assert TasksOf(table[..]) == S.Refill(TasksOf(t));
    }

    /** `schedule` (proc.c:246-273). */
    method Schedule()
      requires table.Length == NR_SLOTS && S.CanSchedule(TasksOf(table[..]))
      modifies this`ready, table
      ensures S.Schedules(old(TasksOf(table[..])), TasksOf(table[..]), ready)
      ensures SameButTicks(old(table[..]), table[..]) && Rescheduled(old(table[..]), table[..], ready)
    {
      ghost var before := TasksOf(table[..]);
      ghost var p :| 0 <= p < |before| && before[p].runnable && (before[p].ticks > 0 || before[p].priority > 0);
      var greatest := 0;
      ghost var refilled := false;
      while greatest == 0
        invariant SameButTicks(old(table[..]), table[..])
        invariant TasksOf(table[..]) == if refilled then S.Refill(before) else before
        invariant refilled ==> !S.HasCredit(before)
        invariant greatest != 0 ==> S.IsPick(TasksOf(table[..]), ready) && (refilled || S.HasCredit(before))
        decreases greatest == 0, !refilled
      {
        assert refilled ==> S.Refill(before)[p].runnable && S.Refill(before)[p].ticks > 0;
        greatest := PickBest();
        if greatest == 0 {
          RefillTicks();
          refilled := true;
        }
      }
      SchedulesTable(old(table[..]), table[..], ready);
    }

    /** `deadlock` (proc.c:189-210): chases `p_sendto` from `dest`. It visits no slot twice, and
        answers whether the chain of blocked senders leads to `src`. */
    method DetectDeadlock(src: int, dest: int) returns (found: bool, ghost hops: nat)
      requires Valid() && Ipc.IsPid(src) && Ipc.IsPid(dest) && src != dest
      ensures found <==> Ipc.ReachesPid(View(), dest, src)
      ensures hops < NR_SLOTS
    {
      ghost var s := View();
      ghost var rank :| Ipc.Ranked(s, rank);
      ghost var seen := {dest};
      var p := dest;
      hops := 0;
      found := false;
      while Sending in table[p].flags
        invariant Ipc.IsPid(p) && p != src && !found
        invariant Ipc.ReachesPid(s, dest, src) <==> Ipc.ReachesPid(s, p, src)
        invariant |seen| == hops + 1 && forall x :: x in seen ==> Ipc.IsPid(x) && rank[p] <= rank[x]
        decreases rank[p]
      {
        assert Ipc.IsSending(s, p) && s.procs[p] == ProcOf(table[p]);
        ReachesStep(s, p, src);
        if table[p].sendto == src {
          assert Ipc.Hop(s, src, 0) == src;
          found := true;
          break;
        }
        p := table[p].sendto;
        seen := seen + {p};
        hops := hops + 1;
      }
      PidsAreFew(NR_SLOTS, seen);
      if found {
        p := table[dest].sendto;  // the trace that is printed follows the same edges up to `src`
        assert Ipc.Hop(s, dest, 0) == dest;
        assert Ipc.IsSending(s, dest) && s.procs[dest] == ProcOf(table[dest]);
        ReachesStep(s, dest, src);
        while p != src
          invariant Ipc.IsPid(p) && Ipc.ReachesPid(s, p, src)
          decreases rank[p]
        {
          ReachesStep(s, p, src);
          assert Ipc.SenderOk(s, p) && s.procs[p] == ProcOf(table[p]);
          assert table[p].msg.Some?;
          p := table[p].sendto;
        }
      }
    }

    /** `block` (proc.c:180-183). */
    method Block(p: int)
      requires table.Length == NR_SLOTS && Ipc.IsPid(p) && table[p].flags != {}
      requires S.CanSchedule(TasksOf(table[..]))
      modifies this`ready, table
      ensures S.Schedules(old(TasksOf(table[..])), TasksOf(table[..]), ready)
      ensures SameButTicks(old(table[..]), table[..]) && Rescheduled(old(table[..]), table[..], ready)
    {
      Schedule();
    }

    /** The receiver is already waiting: copy the message and wake it (proc.c:30-47). */
    method HandOver(current: int, dest: int, m: int) returns (r: Status)
      requires Valid() && Ipc.Runnable(View(), current) && Ipc.IsPid(dest) && current != dest
      requires Ipc.Addr(current, m) in mem && Ipc.CanTake(View(), dest, current)
      modifies this`mem, table
      ensures r == if old(table[dest].flags) == {Receiving} then Done else Failed
      ensures r == Done ==>
        var d := old(View()).procs[dest];
        View() == old(View()).(
          procs := old(View()).procs[dest := d.(flags := d.flags - {Receiving}, msg := None, recvfrom := NO_TASK)],
          mem := old(mem)[Ipc.Addr(dest, d.msg.value) := old(mem)[Ipc.Addr(current, m)]])
      ensures r == Done ==>
        Linked(table[..], queues) && TasksOf(table[..]) == S.SetFlag(TasksOf(old(table[..])), dest, true)
    {
      ghost var s := View();
      ghost var t := table[..];
      assert Ipc.IdleOk(s, current) && Ipc.ReceiverOk(s, dest) && Ipc.SenderOk(s, dest);
      assert s.procs[dest] == ProcOf(table[dest]) && s.procs[current] == ProcOf(table[current]);
      mem := mem[Ipc.Addr(dest, table[dest].msg.value) := mem[Ipc.Addr(current, m)]];
      table[dest] := table[dest].(msg := None);
      table[dest] := table[dest].(flags := table[dest].flags - {Receiving});
      table[dest] := table[dest].(recvfrom := NO_TASK);
      if table[dest].flags != {} {
        return Failed;  // unblock, line 186
      }
      assert table[dest].sendto == NO_TASK;
      assert table[current].flags == {} && table[current].msg == None;
      assert table[current].recvfrom == NO_TASK && table[current].sendto == NO_TASK;
      assert ProcsOf(table[..]) == s.procs[dest := ProcOf(table[dest])];
      LinkedAgree(t, table[..], queues);
      assert TasksOf(table[..]) == S.SetFlag(TasksOf(t), dest, true);
      return Done;
    }

    /** The walk to the tail of the receiver's list (proc.c:54-64). */
    method HookTail(current: int, dest: int, ghost q: seq<int>)
      requires table.Length == NR_SLOTS && Ipc.IsPid(current) && Ipc.IsPid(dest) && current != dest
      requires Chain(table[..], dest, q) && current !in q
      modifies table
      ensures forall x :: Ipc.IsPid(x) ==> table[x] == old(table[x]).(
        qSending := if x == dest && q == [] then Some(current) else old(table[x]).qSending,
        nextSending := if x == current then None
                       else if q != [] && x == q[|q| - 1] then Some(current)
                       else old(table[x]).nextSending)
    {
      ghost var t := table[..];
      assert t[dest].qSending == Link(q, 0);
      if table[dest].qSending.Some? {
        var p := table[dest].qSending.value;
        ghost var i := 0;
        assert LinkAt(t, q, i);
        while table[p].nextSending.Some?
          invariant 0 <= i < |q| && p == q[i] && LinkAt(t, q, i) && table[..] == t
          decreases |q| - i
        {
          p := table[p].nextSending.value;
          i := i + 1;
          assert LinkAt(t, q, i);
        }
        assert q[i] in q;
        table[p] := table[p].(nextSending := Some(current));
      } else {
        table[dest] := table[dest].(qSending := Some(current));
      }
      table[current] := table[current].(nextSending := None);
    }

    /** The sender's own fields, then its place in the list (proc.c:49-64). */
    method HookSender(current: int, dest: int, m: int, ghost q: seq<int>)
      requires table.Length == NR_SLOTS && Ipc.IsPid(current) && Ipc.IsPid(dest) && current != dest
      requires Chain(table[..], dest, q) && current !in q && table[current].flags == {}
      modifies table
      ensures forall x :: 0 <= x < NR_SLOTS ==> table[x] == BlockedSlot(old(table[x]), x, current, dest, m, q)
    {
      ghost var t := table[..];
      table[current] := table[current].(flags := table[current].flags + {Sending});
      assert table[current].flags == {Sending};
      table[current] := table[current].(sendto := dest);
      table[current] := table[current].(msg := Some(m));
      forall i | 0 <= i < |q| ensures LinkAt(table[..], q, i) { assert LinkAt(t, q, i) && q[i] in q; }
      assert table[..][dest].qSending == Link(q, 0);
      HookTail(current, dest, q);
    }

    /** The sender joins the tail of the receiver's list (proc.c:49-64). */
    method Enqueue(current: int, dest: int, m: int)
      requires Valid() && Ipc.Runnable(View(), current) && Ipc.IsPid(dest) && current != dest
      modifies this`queues, table
      ensures View() == old(View()).(
        procs := old(View()).procs[current := old(View()).procs[current].(
          flags := old(View()).procs[current].flags + {Sending}, sendto := dest, msg := Some(m))],
        queues := old(queues)[dest := old(queues[dest]) + [current]])
      ensures Linked(table[..], queues) && TasksOf(table[..]) == S.SetFlag(TasksOf(old(table[..])), current, false)
    {
      ghost var s, t := View(), table[..];
      assert Chain(t, dest, queues[dest]) && s.procs[current] == ProcOf(t[current]);
      assert current !in queues[dest] by { assert Ipc.QueueOk(s, dest); }
      HookSender(current, dest, m, queues[dest]);
      BlockedViews(t, table[..], current, dest, m, queues[dest]);
      BlockedLinks(s, t, table[..], current, dest, m);
      queues := queues[dest := queues[dest] + [current]];
    }

    /** `msg_send` (proc.c:20-74). */
    method MsgSend(current: int, dest: int, m: int) returns (r: Status)
      requires Valid() && current == ready && Ipc.Runnable(View(), current)
      requires Ipc.IsPid(dest) && current != dest && Ipc.Addr(current, m) in mem
      requires Ipc.Blocks(View(), Ipc.Send(current, dest, m)) ==> OthersCanRun(current)
      modifies this`ready, this`mem, this`queues, table
      ensures match Ipc.SendStep(old(View()), current, dest, m)
        case Ok(s) =>
          r == Done && Valid() && View() == s &&
          S.Next(old(Sched()), if Ipc.CanTake(old(View()), dest, current)
            then S.SetRunnable(dest, true) else S.Block, Sched())
        case Deadlock => r == Panicked
        case AssertFailed => r == Failed
    {
      hide Rescheduled, S.Schedules, S.CanSchedule;
      ghost var s := View();
      assert Ipc.ReceiverOk(s, dest) && Ipc.SenderOk(s, current);
      assert s.procs[dest] == ProcOf(table[dest]);
      SendKeeps(s, current, dest, m);
      var deadlock, _ := DetectDeadlock(current, dest);
      if deadlock {
        return Panicked;
      }
      if Receiving in table[dest].flags && (table[dest].recvfrom == current || table[dest].recvfrom == ANY) {
        r := HandOver(current, dest, m);
      } else {
        Enqueue(current, dest, m);
        ghost var u := table[..];
        assert View().procs[current] == ProcOf(table[current]);
        Block(current);
        TicksDoNotMatter(u, table[..], queues);
        assert View().procs[current] == ProcOf(table[current]);
        assert table[current].flags == {Sending} && table[current].msg != None && table[current].sendto == dest;
        r := Done;
      }
    }

    /** The search for `src` in the caller's list (proc.c:122-131). */
    method FindSender(current: int, src: int, ghost q: seq<int>) returns (prev: Option<int>, ghost k: nat)
      requires table.Length == NR_SLOTS && Ipc.IsPid(current) && Chain(table[..], current, q) && src in q
      ensures k < |q| && q[k] == src && prev == if k == 0 then None else Some(q[k - 1])
      ensures prev.None? ==> table[current].qSending == Some(src)
      ensures prev.Some? ==> prev.value in q && 0 <= prev.value < NR_SLOTS && table[prev.value].nextSending == Some(src)
    {
      ghost var n :| 0 <= n < |q| && q[n] == src;
      assert table[current].qSending == Link(q, 0);
      k := 0;
      prev := None;
      var p := table[current].qSending;
      while p != Some(src)
        invariant k <= n && p == Some(q[k])
        invariant prev == if k == 0 then None else Some(q[k - 1])
        invariant prev.None? ==> p == table[current].qSending
        invariant prev.Some? ==> 0 <= prev.value < NR_SLOTS && p == table[prev.value].nextSending
        decreases n - k
      {
        assert LinkAt(table[..], q, k);
        prev := p;
        p := table[p.value].nextSending;
        k := k + 1;
      }
    }

    /** The sender leaves the receiver's list (proc.c:145-153). */
    method Unhook(current: int, from: int, prev: Option<int>, ghost q: seq<int>, ghost k: nat)
      requires table.Length == NR_SLOTS && Ipc.IsPid(current) && Chain(table[..], current, q) && Ipc.Distinct(q)
      requires k < |q| && q[k] == from && from != current
      requires prev == if k == 0 then None else Some(q[k - 1])
      modifies table
      ensures forall x :: 0 <= x < NR_SLOTS ==> table[x] == old(table[x]).(
        qSending := if x == current && k == 0 then Link(q, 1) else old(table[x]).qSending,
        nextSending := if x == from then None
                       else if k > 0 && x == q[k - 1] then Link(q, k + 1)
                       else old(table[x]).nextSending)
    {
      ghost var t := table[..];
      assert t[current].qSending == Link(q, 0) && LinkAt(t, q, k);
      assert k > 0 ==> LinkAt(t, q, k - 1);
      if Some(from) == table[current].qSending {
        assert k == 0 && prev == None;
        table[current] := table[current].(qSending := table[from].nextSending);
        table[from] := table[from].(nextSending := None);
      } else {
        assert prev.Some? && q[k - 1] != q[k];
        table[prev.value] := table[prev.value].(nextSending := table[from].nextSending);
        table[from] := table[from].(nextSending := None);
      }
    }

    /** Unhook the sender, copy its message and wake it (proc.c:144-164). */
    method Take(current: int, from: int, prev: Option<int>, m: int, ghost k: nat) returns (r: Status)
      requires Valid() && Ipc.Runnable(View(), current) && k < |queues[current]| && queues[current][k] == from
      requires Ipc.IsPid(from)
      requires prev == if k == 0 then None else Some(queues[current][k - 1])
      modifies this`queues, this`mem, table
      ensures r == Done
      ensures View() == (var f := old(View()).procs[from];
        Ipc.State(old(View()).procs[from := f.(flags := f.flags - {Sending}, msg := None, sendto := NO_TASK)],
                  old(queues)[current := Ipc.Remove(old(queues)[current], from)],
                  old(mem)[Ipc.Addr(current, m) := old(mem)[Ipc.Addr(from, f.msg.value)]]))
      ensures Linked(table[..], queues) && TasksOf(table[..]) == S.SetFlag(TasksOf(old(table[..])), from, true)
    {
      ghost var s := View();
      ghost var t := table[..];
      ghost var q := queues[current];
      assert Chain(t, current, q) && Ipc.QueueOk(s, current) && q[k] in q;
      assert Ipc.IsSending(s, from) && Ipc.SenderOk(s, from) && s.procs[from] == ProcOf(t[from]);
      assert from != current;
      Unhook(current, from, prev, q, k);
      mem := mem[Ipc.Addr(current, m) := mem[Ipc.Addr(from, table[from].msg.value)]];
      table[from] := table[from].(msg := None);
      table[from] := table[from].(sendto := NO_TASK);
      table[from] := table[from].(flags := table[from].flags - {Sending});
      assert forall x :: 0 <= x < |t| ==> table[..][x] == TakenSlot(t[x], x, current, q, k);
      TakenViews(t, table[..], current, q, k);
      TakenLinks(s, t, table[..], current, k);
      queues := queues[current := Ipc.Remove(queues[current], from)];
      assert table[from].flags == {};  // unblock, line 186
      r := Done;
    }

    /** Wait for a message (proc.c:166-176). */
    method Wait(current: int, src: int, m: int) returns (r: Status)
      requires Valid() && current == ready && Ipc.Runnable(View(), current) && OthersCanRun(current)
      requires Ipc.IsPid(src) || src == ANY || src == INTERRUPT
      modifies this`ready, table
      ensures r == if old(table[current].hasInt) then Failed else Done
      ensures View() == old(View()).(procs := old(View()).procs[current :=
        old(View()).procs[current].(
          flags := old(View()).procs[current].flags + {Receiving}, msg := Some(m), recvfrom := src)])
      ensures Linked(table[..], queues) && S.Next(old(Sched()), S.Block, Sched())
    {
      hide Rescheduled, S.Schedules, S.CanSchedule;
      ghost var s := View();
      ghost var t := table[..];
      assert s.procs[current] == ProcOf(t[current]) && Ipc.IdleOk(s, current);
      table[current] := table[current].(flags := table[current].flags + {Receiving});
      table[current] := table[current].(msg := Some(m));
      table[current] := table[current].(recvfrom := src);
      ghost var u := table[..];
      assert ProcsOf(u) == s.procs[current := ProcOf(u[current])];
      LinkedAgree(t, u, queues);
      assert Receiving in u[current].flags;
      assert TasksOf(u) == S.SetFlag(TasksOf(t), current, false);
      Block(current);
      TicksDoNotMatter(u, table[..], queues);
      assert View().procs[current] == ProcOf(table[current]);
      assert table[current].recvfrom != NO_TASK && table[current].sendto == NO_TASK;
      if table[current].hasInt {
        return Failed;  // line 175
      }
      return Done;
    }

    /** The latched interrupt becomes a message (proc.c:84-101). */
    method TakeInterrupt(current: int, m: int)
      requires Valid() && Ipc.IsPid(current)
      modifies this`mem, table
      ensures View() == old(View()).(
        procs := old(View()).procs[current := old(View()).procs[current].(hasInt := false)],
                                     mem := old(mem)[Ipc.Addr(current, m) := Ipc.HARD_INT_MSG])
      ensures Linked(table[..], queues) && Sched() == old(Sched())
    {
      ghost var t := table[..];
      mem := mem[Ipc.Addr(current, m) := Ipc.RESET_MSG.(source := INTERRUPT, kind := HARD_INT)];
      table[current] := table[current].(hasInt := false);
      assert ProcsOf(table[..]) == ProcsOf(t)[current := ProcOf(table[current])];
      LinkedAgree(t, table[..], queues);
      assert TasksOf(table[..]) == TasksOf(t);
    }

    /** Which sender a receive takes, and its predecessor in the list (proc.c:103-143). */
    method FindCandidate(current: int, src: int) returns (from: Option<int>, prev: Option<int>, ghost k: nat)
      requires Ipc.Shape(View()) && Ipc.IsPid(current) && table.Length == NR_SLOTS
      requires Ipc.QueueOk(View(), current) && Chain(table[..], current, queues[current])
      requires Ipc.IsPid(src) ==> Ipc.SenderOk(View(), src)
      ensures from == Ipc.Candidate(View(), current, src)
      ensures from.Some? ==> Ipc.IsPid(from.value) && k < |queues[current]| && queues[current][k] == from.value
      ensures from.Some? ==> prev == if k == 0 then None else Some(queues[current][k - 1])
    {
      ghost var q := queues[current];
      from, prev, k := None, None, 0;
      if src == ANY {
        assert table[..][current].qSending == Link(q, 0);
        from := table[current].qSending;
        if q != [] { assert q[0] in q; }
      } else if 0 <= src < NR_SLOTS {
        assert View().procs[src] == ProcOf(table[src]);
        if Sending in table[src].flags && table[src].sendto == current {
          from := Some(src);
          prev, k := FindSender(current, src, q);
        }
      }
    }

    /** `msg_receive` (proc.c:76-178). */
    method MsgReceive(current: int, src: int, m: int) returns (r: Status)
      requires Valid() && current == ready && Ipc.Runnable(View(), current)
      requires (Ipc.IsPid(src) || src == ANY || src == INTERRUPT) && src != current && Ipc.Addr(current, m) in mem
      requires Ipc.Blocks(View(), Ipc.Receive(current, src, m)) ==> OthersCanRun(current)
      modifies this`ready, this`mem, this`queues, table
      ensures match Ipc.ReceiveStep(old(View()), current, src, m)
        case Ok(s) =>
          r == Done && Valid() && View() == s &&
          (if Ipc.TakesInterrupt(old(View()), current, src) then Sched() == old(Sched())
           else match Ipc.Candidate(old(View()), current, src)
             case Some(from) => S.Next(old(Sched()), S.SetRunnable(from, true), Sched())
             case None => S.Next(old(Sched()), S.Block, Sched()))
        case Deadlock => false
        case AssertFailed => r == Failed
    {
      ghost var s := View();
      assert s.procs[current] == ProcOf(table[current]);
      ReceiveKeeps(s, current, src, m);
      if table[current].hasInt && (src == ANY || src == INTERRUPT) {
        TakeInterrupt(current, m);
        return Done;
      }
      assert Chain(table[..], current, queues[current]) && Ipc.QueueOk(s, current);
      var from, prev, k := FindCandidate(current, src);
      if from.Some? {
        assert Ipc.SenderOk(s, from.value) by { assert Ipc.IsPid(from.value); }
        r := Take(current, from.value, prev, m, k);
      } else {
        r := Wait(current, src, m);
      }
    }

    /** `inform_int` (proc.c:303-323). */
    method InformInt(task: int) returns (r: Status)
      requires Valid() && Ipc.IsPid(task) && FreeSlot !in table[task].flags
      modifies this`mem, table
      ensures match Ipc.InformStep(old(View()), task)
        case Ok(s) =>
          r == Done && Valid() && View() == s &&
          Sched() == S.Sched(S.Woken(old(Sched()).tasks,
            if Ipc.AwaitsInterrupt(old(View()), task) then Some(task) else None), ready)
        case Deadlock => false
        case AssertFailed => r == Failed
      ensures r == Done ==> table[..] == old(table[..])[task := Notified(old(table[task]))]
      ensures r == Done ==> mem == NotifiedBuffers(old(mem), old(table[task]), task)
    {
      ghost var s := View();
      ghost var t := table[..];
      assert s.procs[task] == ProcOf(t[task]) && Ipc.ReceiverOk(s, task);
      InformKeeps(s, task);
      if Receiving in table[task].flags && (table[task].recvfrom == INTERRUPT || table[task].recvfrom == ANY) {
        var a := Ipc.Addr(task, table[task].msg.value);
        mem := mem[a := mem[a].(source := INTERRUPT)];
        mem := mem[a := mem[a].(kind := HARD_INT)];
        table[task] := table[task].(msg := None, hasInt := false);
        table[task] := table[task].(flags := table[task].flags - {Receiving}, recvfrom := NO_TASK);
        if table[task].flags != {} {
          return Failed;  // line 313
        }
        assert table[task].sendto == NO_TASK;
        assert mem == s.mem[a := s.mem[a].(source := INTERRUPT, kind := HARD_INT)];
      } else {
        table[task] := table[task].(hasInt := true);
      }
      assert ProcsOf(table[..]) == s.procs[task := ProcOf(table[task])];
      LinkedAgree(t, table[..], queues);
      assert TasksOf(table[..]) == TasksOf(t)[task := TaskOf(table[task])];
      return Done;
    }

    /** Reschedule unless the kernel was interrupted or the current process has credit left
        (kernel/clock.c:25-36). */
    method Preempt()
      requires Valid()
      requires S.KeepsCpu(TasksOf(table[..]), ready, reenter != 0) || S.CanSchedule(TasksOf(table[..]))
      modifies this`ready, table
      ensures Valid() && View() == old(View())
      ensures if S.KeepsCpu(old(Sched()).tasks, old(ready), reenter != 0) then Sched() == old(Sched())
              else S.Schedules(old(Sched()).tasks, Sched().tasks, ready)
      ensures if reenter != 0 || old(table[ready]).ticks > 0 then table[..] == old(table[..]) && ready == old(ready)
              else Rescheduled(old(table[..]), table[..], ready)
    {
      ghost var t := table[..];
      assert TasksOf(t)[ready] == TaskOf(t[ready]);
      if reenter != 0 {
        return;
      }
      if table[ready].ticks > 0 {
        return;
      }
      Schedule();
      TicksDoNotMatter(t, table[..], queues);
    }

    /** Count the interrupt and charge the current process (kernel/clock.c:16-20). */
    method Charge()
      requires Valid()
      modifies this`ticks, table
      ensures ticks == if old(ticks) + 1 >= 0x7FFF_ABCD then 0 else old(ticks) + 1
      ensures Valid() && View() == old(View()) && SameButTicks(old(table[..]), table[..])
      ensures TasksOf(table[..]) == S.Spend(TasksOf(old(table[..])), ready)
      ensures table[..] == Clocked(old(table[..]), ready, false)
    {
      ghost var t := table[..];
      ticks := ticks + 1;
      if ticks >= MAX_TICKS {
        ticks := 0;
      }
      if table[ready].ticks != 0 {
        table[ready] := table[ready].(ticks := table[ready].ticks - 1);
      }
      TicksDoNotMatter(t, table[..], queues);
      assert TasksOf(table[..]) == S.Spend(TasksOf(t), ready);
    }

    /** A pending key press interrupts the terminal task (kernel/clock.c:22-23). */
    method PollKey() returns (r: Status)
      requires Valid() && FreeSlot !in table[TASK_TTY].flags
      modifies this`mem, table
      ensures match KeyStep(old(View()), keyPressed)
        case Ok(s) =>
          r == Done && Valid() && View() == s &&
          Sched() == S.Sched(S.Woken(old(Sched()).tasks, KeyWakes(old(View()), keyPressed)), ready)
        case Deadlock => false
        case AssertFailed => r == Failed
      ensures !keyPressed ==> r == Done && table[..] == old(table[..]) && mem == old(mem)
      ensures keyPressed && r == Done ==> table[..] == old(table[..])[TASK_TTY := Notified(old(table[TASK_TTY]))]
      ensures keyPressed && r == Done ==> mem == NotifiedBuffers(old(mem), old(table[TASK_TTY]), TASK_TTY)
    {
      r := Done;
      if keyPressed {
        r := InformInt(TASK_TTY);
      }
    }

    /** The first half of the clock handler (kernel/clock.c:16-23). */
    method ChargeAndPoll() returns (r: Status)
      requires Valid() && FreeSlot !in table[TASK_TTY].flags
      modifies this`ticks, this`mem, table
      ensures ticks == if old(ticks) + 1 >= 0x7FFF_ABCD then 0 else old(ticks) + 1
      ensures match KeyStep(old(View()), keyPressed)
        case Ok(s) =>
          r == Done && Valid() && View() == s &&
          Sched() == S.Sched(
            S.Woken(S.Spend(old(Sched()).tasks, ready), KeyWakes(old(View()), keyPressed)), ready)
        case Deadlock => false
        case AssertFailed => r == Failed
      ensures r == Done ==> table[..] == Clocked(old(table[..]), ready, keyPressed)
      ensures r == Done ==>
        mem == if keyPressed then NotifiedBuffers(old(mem), old(table[TASK_TTY]), TASK_TTY) else old(mem)
    {
      ghost var s := View();
      Charge();
      assert View() == s;
      r := PollKey();
    }

    lemma InTable()
      requires Valid()
      ensures table.Length == NR_SLOTS && Ipc.IsPid(ready) && Ipc.Shape(View()) && |Sched().tasks| == NR_SLOTS
    {
    }

    /** The processes as the clock handler leaves them to the scheduler. */
    ghost function Charged(): (ts: seq<S.Task>)
      requires Valid()
      reads this, table
      ensures |ts| == NR_SLOTS
    {
      S.Woken(S.Spend(TasksOf(table[..]), ready), KeyWakes(View(), keyPressed))
    }

    /** `clock_handler` (kernel/clock.c:14-37). When the processor changes hands somebody must have credit or
        priority, or `schedule` does not end. */
    method ClockHandler() returns (r: Status)
      requires Valid() && FreeSlot !in table[TASK_TTY].flags
      requires S.KeepsCpu(Charged(), ready, reenter != 0) || S.CanSchedule(Charged())
      modifies this`ready, this`ticks, this`mem, table
      ensures ticks == if old(ticks) + 1 >= 0x7FFF_ABCD then 0 else old(ticks) + 1
      ensures match KeyStep(old(View()), old(keyPressed))
        case Ok(s) =>
          r == Done && Valid() && View() == s &&
          S.Next(old(Sched()), S.Tick(old(reenter) != 0, KeyWakes(old(View()), old(keyPressed))), Sched())
        case Deadlock => false
        case AssertFailed => r == Failed
      ensures r == Done ==>
        var u := Clocked(old(table[..]), old(ready), keyPressed);
        if reenter != 0 || u[old(ready)].ticks > 0 then table[..] == u && ready == old(ready)
        else Rescheduled(u, table[..], ready)
      ensures r == Done ==>
        mem == if keyPressed then NotifiedBuffers(old(mem), old(table[TASK_TTY]), TASK_TTY) else old(mem)
    {
      hide Valid, View, KeyStep, TasksOf, S.Spend, S.Woken, S.CanSchedule, S.KeepsCpu, S.Schedules, S.Next, Clocked,
           Rescheduled, NotifiedBuffers;
      InTable();
      ghost var c, woken := Sched(), KeyWakes(View(), keyPressed);
      r := ChargeAndPoll();
      if r == Done {
        Preempt();
        S.TickIsNext(c, reenter != 0, woken, Sched());
      }
    }

    /** What `sys_sendrec` asserts of its caller and arguments (lines 276-285). */
    predicate Admissible(srcDest: int, p: int)
      reads this
    {
      reenter == 0 && (Ipc.IsPid(srcDest) || srcDest == ANY || srcDest == INTERRUPT) && srcDest != p
    }

    function Asked(kind: int, srcDest: int, m: int, p: int): Ipc.Event {
      if kind == SEND then Ipc.Send(p, srcDest, m)
      else if kind == RECEIVE then Ipc.Receive(p, srcDest, m)
      else Ipc.Unmark(p)
    }

    /** `sys_sendrec` (proc.c:275-301). A send addressed to ANY or INTERRUPT passes its assertions and goes
        astray: `msg_send` takes what lies outside the process table for a process. */
    method SysSendRec(kind: int, srcDest: int, m: int, p: int) returns (r: Status)
      requires Valid() && p == ready && Ipc.Runnable(View(), p) && Ipc.Addr(p, m) in mem
      requires Admissible(srcDest, p) && Ipc.Blocks(View(), Asked(kind, srcDest, m, p)) ==> OthersCanRun(p)
      modifies this`ready, this`mem, this`queues, table
      ensures !old(Admissible(srcDest, p)) ==> r == Failed
      ensures old(Admissible(srcDest, p)) && kind != SEND && kind != RECEIVE ==> r == Panicked
      ensures old(Admissible(srcDest, p)) && kind == SEND && !Ipc.IsPid(srcDest) ==> r == Astray
      ensures old(Admissible(srcDest, p)) && (kind == RECEIVE || (kind == SEND && Ipc.IsPid(srcDest))) ==>
        match Ipc.Step(old(View()), if kind == SEND then Ipc.Send(p, srcDest, m) else Ipc.Receive(p, srcDest, m))
        case Ok(s) => r == Done && Valid() && View() == s
        case Deadlock => r == Panicked
        case AssertFailed => r == Failed
    {
      if reenter != 0 || !(0 <= srcDest < NR_SLOTS || srcDest == ANY || srcDest == INTERRUPT) {
        return Failed;
      }
      if p == srcDest {
        return Failed;
      }
      StampKeeps(View(), p, m);
      StampBlocks(View(), p, m, Asked(kind, srcDest, m, p));
      mem := mem[Ipc.Addr(p, m) := mem[Ipc.Addr(p, m)].(source := p)];
      assert View() == Ipc.Stamp(old(View()), p, m);
      if kind == SEND {
        if !(0 <= srcDest < NR_SLOTS) {
          return Astray;
        }
        r := MsgSend(p, srcDest, m);
      } else if kind == RECEIVE {
        r := MsgReceive(p, srcDest, m);
      } else {
        r := Panicked;
      }
    }
  }
}
