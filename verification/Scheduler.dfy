/** The tick-credit scheduler of `kernel/proc.c` and `kernel/clock.c`: what one call of
    `schedule` picks, and a bound on how long a process with credit can be kept waiting. */
module Scheduler {
  import opened Const

  /** What the scheduler sees of a process: `runnable` is `p_flags == 0`. */
  datatype Task = Task(ticks: int, priority: int, runnable: bool)

  /** The process table and `p_proc_ready`. */
  datatype Sched = Sched(tasks: seq<Task>, cur: int)

  datatype Event =
    | Tick(reentrant: bool, wake: Option<int>)  // clock interrupt; a key press may wake a task
    | Block                                     // the current process blocks and gives up the CPU
    | SetRunnable(q: int, runnable: bool)       // another process is woken, marked or freed

  predicate HasCredit(ts: seq<Task>) {
    exists p :: 0 <= p < |ts| && ts[p].runnable && ts[p].ticks > 0
  }

  /** `schedule` terminates from here: somebody has credit, or gets some from a refill. */
  predicate CanSchedule(ts: seq<Task>) {
    exists p :: 0 <= p < |ts| && ts[p].runnable && (ts[p].ticks > 0 || ts[p].priority > 0)
  }

  /** Somebody is runnable and would get credit from a refill. */
  predicate SomeoneRuns(ts: seq<Task>) {
    exists p :: 0 <= p < |ts| && ts[p].runnable && ts[p].priority > 0
  }

  /** `r` is the first runnable process with the most ticks, and has some. */
  predicate IsPick(ts: seq<Task>, r: int) {
    && 0 <= r < |ts| && ts[r].runnable && ts[r].ticks > 0
    && forall q :: 0 <= q < |ts| && ts[q].runnable ==>
         ts[q].ticks <= ts[r].ticks && (q < r ==> ts[q].ticks < ts[r].ticks)
  }

  function Refill(ts: seq<Task>): (r: seq<Task>)
    ensures |r| == |ts|
  {
    seq(|ts|, i requires 0 <= i < |ts| => if ts[i].runnable then ts[i].(ticks := ts[i].priority) else ts[i])
  }

  /** One call of `schedule`: at most one refill, and only when nobody runnable has credit. */
  predicate Schedules(ts: seq<Task>, ts': seq<Task>, r: int) {
    ts' == (if HasCredit(ts) then ts else Refill(ts)) && IsPick(ts', r)
  }

  function Spend(ts: seq<Task>, p: int): seq<Task>
    requires 0 <= p < |ts|
  {
    if ts[p].ticks != 0 then ts[p := ts[p].(ticks := ts[p].ticks - 1)] else ts
  }

  function SetFlag(ts: seq<Task>, q: int, b: bool): seq<Task>
    requires 0 <= q < |ts|
  {
    ts[q := ts[q].(runnable := b)]
  }

  function Woken(ts: seq<Task>, wake: Option<int>): seq<Task>
    requires wake.Some? ==> 0 <= wake.value < |ts|
  {
    if wake.Some? then SetFlag(ts, wake.value, true) else ts
  }

  /** The clock handler returns without rescheduling (kernel/clock.c:25-31). */
  predicate KeepsCpu(ts: seq<Task>, cur: int, reentrant: bool)
    requires 0 <= cur < |ts|
  {
    reentrant || ts[cur].ticks > 0
  }

  /** As long as somebody runnable has a priority, the clock handler can always schedule. */
  lemma StillStaffed(ts: seq<Task>, cur: int, wake: Option<int>)
    requires SomeoneRuns(ts) && 0 <= cur < |ts| && (wake.Some? ==> 0 <= wake.value < |ts|)
    ensures CanSchedule(Woken(Spend(ts, cur), wake))
  {
    var p :| 0 <= p < |ts| && ts[p].runnable && ts[p].priority > 0;
    var us := Woken(Spend(ts, cur), wake);
    assert us[p].runnable && us[p].priority > 0;
  }

  predicate Next(s: Sched, e: Event, s': Sched) {
    && 0 <= s.cur < |s.tasks|
    && match e
       case Tick(reentrant, wake) =>
         && (wake.Some? ==> 0 <= wake.value < |s.tasks|)
         && var ts := Woken(Spend(s.tasks, s.cur), wake);
            if KeepsCpu(ts, s.cur, reentrant) then s' == Sched(ts, s.cur)
            else Schedules(ts, s'.tasks, s'.cur)
       case Block => Schedules(SetFlag(s.tasks, s.cur, false), s'.tasks, s'.cur)
       case SetRunnable(q, b) =>
         0 <= q < |s.tasks| && q != s.cur && s' == Sched(SetFlag(s.tasks, q, b), s.cur)
  }

  /** Charge, wake, and reschedule unless the CPU is kept: that is one tick. */
  lemma TickIsNext(s: Sched, reentrant: bool, wake: Option<int>, s': Sched)
    requires 0 <= s.cur < |s.tasks| && (wake.Some? ==> 0 <= wake.value < |s.tasks|)
    requires var ts := Woken(Spend(s.tasks, s.cur), wake);
      if KeepsCpu(ts, s.cur, reentrant) then s' == Sched(ts, s.cur) else Schedules(ts, s'.tasks, s'.cur)
    ensures Next(s, Tick(reentrant, wake), s')
  {
  }

  /** Some process is the first runnable one with the most ticks, if anybody has credit. */
  lemma {:induction false} PickExists(ts: seq<Task>)
    requires HasCredit(ts)
    ensures exists r :: IsPick(ts, r)
  {
    var n := |ts| - 1;
    var init := ts[..n];
    if HasCredit(init) {
      PickExists(init);
      var r :| IsPick(init, r);
      if ts[n].runnable && ts[n].ticks > ts[r].ticks {
        assert forall q :: 0 <= q < n ==> ts[q] == init[q];
        assert IsPick(ts, n);
      } else {
        assert forall q :: 0 <= q < n ==> ts[q] == init[q];
        assert IsPick(ts, r);
      }
    } else {
      assert forall q :: 0 <= q < n ==> ts[q] == init[q];
      assert IsPick(ts, n);
    }
  }

  /** `schedule` can finish exactly when some runnable process has credit or would get some from a
      refill; otherwise it spins. */
  lemma SchedulesIff(ts: seq<Task>)
    ensures (exists ts', r :: Schedules(ts, ts', r)) <==> CanSchedule(ts)
  {
    var next := if HasCredit(ts) then ts else Refill(ts);
    if CanSchedule(ts) {
      var p :| 0 <= p < |ts| && ts[p].runnable && (ts[p].ticks > 0 || ts[p].priority > 0);
      assert HasCredit(ts) || (next[p].runnable && next[p].ticks > 0);
      PickExists(next);
      var r :| IsPick(next, r);
      assert Schedules(ts, next, r);
    }
    if ts', r :| Schedules(ts, ts', r) {
      assert ts[r].runnable && (ts[r].ticks > 0 || ts[r].priority > 0);
    }
  }

  // ---------------------------------------------------------------- event by event

  /** Task `q` as the event leaves it to the scheduler: the current process pays one tick, if it has any, for a clock
      interrupt; who is woken can run, and who blocks cannot. */
  function Left(s: Sched, e: Event, q: int): Task
    requires 0 <= q < |s.tasks|
  {
    var x := s.tasks[q];
    match e
    case Tick(_, wake) =>
      Task(if q == s.cur && x.ticks != 0 then x.ticks - 1 else x.ticks, x.priority, x.runnable || wake == Some(q))
    case Block => Task(x.ticks, x.priority, x.runnable && q != s.cur)
    case SetRunnable(p, b) => Task(x.ticks, x.priority, if p == q then b else x.runnable)
  }

  /** The event takes the processor away: the current process blocks, or a clock interrupt that did not come in the
      middle of another finds it without ticks. */
  predicate Switches(s: Sched, e: Event)
    requires 0 <= s.cur < |s.tasks|
  {
    match e
    case Tick(reentrant, _) => !reentrant && s.tasks[s.cur].ticks <= 1
    case Block => true
    case SetRunnable(_, _) => false
  }

  /** And nobody who can run has ticks left, so that all who can run get new ones. */
  predicate Refills(s: Sched, e: Event)
    requires 0 <= s.cur < |s.tasks|
  {
    Switches(s, e) && forall q :: 0 <= q < |s.tasks| ==> Left(s, e, q).runnable ==> Left(s, e, q).ticks <= 0
  }

  /** Everybody keeps his priority, and his ticks but for the charge, unless there is a refill, which gives to each who
      can run his priority in ticks. */
  lemma NextTasks(s: Sched, e: Event, s': Sched, q: int)
    requires Next(s, e, s') && 0 <= q < |s.tasks|
    ensures |s'.tasks| == |s.tasks| && s'.tasks[q].priority == s.tasks[q].priority
    ensures s'.tasks[q].runnable == Left(s, e, q).runnable
    ensures s'.tasks[q].ticks ==
      if Refills(s, e) && s'.tasks[q].runnable then s.tasks[q].priority else Left(s, e, q).ticks
  {
    var ts := LeftAll(s, e);
    assert HasCredit(ts) <==> exists p :: 0 <= p < |s.tasks| && Left(s, e, p).runnable && Left(s, e, p).ticks > 0;
  }

  /** The tasks from which the scheduler picks. */
  function LeftAll(s: Sched, e: Event): (ts: seq<Task>)
    requires 0 <= s.cur < |s.tasks|
    requires e.Tick? && e.wake.Some? ==> 0 <= e.wake.value < |s.tasks|
    requires e.SetRunnable? ==> 0 <= e.q < |s.tasks|
    ensures |ts| == |s.tasks| && forall q :: 0 <= q < |ts| ==> ts[q] == Left(s, e, q)
  {
    match e
    case Tick(_, wake) => Woken(Spend(s.tasks, s.cur), wake)
    case Block => SetFlag(s.tasks, s.cur, false)
    case SetRunnable(q, b) => SetFlag(s.tasks, q, b)
  }

  /** The processor stays where it is, or goes to the first of those who can run with the most ticks. */
  lemma NextCpu(s: Sched, e: Event, s': Sched, q: int)
    requires Next(s, e, s')
    ensures !Switches(s, e) ==> s'.cur == s.cur
    ensures Switches(s, e) ==> 0 <= s'.cur < |s'.tasks| && s'.tasks[s'.cur].runnable && s'.tasks[s'.cur].ticks > 0
    ensures Switches(s, e) && 0 <= q < |s'.tasks| && s'.tasks[q].runnable ==>
      s'.tasks[q].ticks <= s'.tasks[s'.cur].ticks && (q < s'.cur ==> s'.tasks[q].ticks < s'.tasks[s'.cur].ticks)
  {
  }

  /** How often `q` pays between two moments of a run. */
  function Paid(ss: seq<Sched>, es: seq<Event>, q: int, i: nat, j: nat): nat
    requires i <= j <= |es| < |ss|
  {
    if i == j then 0
    else
      var s := ss[j - 1];
      Paid(ss, es, q, i, j - 1) +
      if es[j - 1].Tick? && s.cur == q && 0 <= q < |s.tasks| && s.tasks[q].ticks != 0 then 1 else 0
  }

  /** Over a run without a refill a process has what it had less what it paid, one tick a time; and over any run its
      priority stays. */
  lemma {:induction false} RunTicks(ss: seq<Sched>, es: seq<Event>, q: int, i: nat, j: nat)
    requires IsRun(ss, es) && i <= j <= |es| && 0 <= q < |ss[i].tasks|
    ensures |ss[j].tasks| == |ss[i].tasks| && ss[j].tasks[q].priority == ss[i].tasks[q].priority
    ensures (forall k :: i <= k < j ==> 0 <= ss[k].cur < |ss[k].tasks| && !Refills(ss[k], es[k])) ==>
      ss[j].tasks[q].ticks == ss[i].tasks[q].ticks - Paid(ss, es, q, i, j)
    decreases j - i
  {
    hide Next, Refills;
    if i < j {
      RunTicks(ss, es, q, i, j - 1);
      assert Next(ss[j - 1], es[j - 1], ss[j - 1 + 1]);
      CurInside(ss[j - 1], es[j - 1], ss[j]);
      NextTasks(ss[j - 1], es[j - 1], ss[j], q);
    }
  }

  lemma CurInside(s: Sched, e: Event, s': Sched)
    requires Next(s, e, s')
    ensures 0 <= s.cur < |s.tasks|
  {
  }

  /** At every refill of a run a process that can run gets the whole priority it has had from the start. */
  lemma RunRefill(ss: seq<Sched>, es: seq<Event>, q: int, i: nat)
    requires IsRun(ss, es) && i < |es| && 0 <= q < |ss[0].tasks| && 0 <= ss[i].cur < |ss[i].tasks|
    requires Refills(ss[i], es[i]) && |ss[i + 1].tasks| > q && ss[i + 1].tasks[q].runnable
    ensures ss[i + 1].tasks[q].ticks == ss[0].tasks[q].priority
  {
    hide Next;
    RunTicks(ss, es, q, 0, i);
    assert Next(ss[i], es[i], ss[i + 1]);
    NextTasks(ss[i], es[i], ss[i + 1], q);
  }

  // ---------------------------------------------------------------- starvation bound

  function Sum(ts: seq<Task>): int {
    if ts == [] then 0 else ts[0].ticks + Sum(ts[1..])
  }

  lemma {:induction false} SumUpdate(ts: seq<Task>, i: int, x: Task)
    requires 0 <= i < |ts|
    ensures Sum(ts[i := x]) == Sum(ts) - ts[i].ticks + x.ticks
  {
    if i > 0 {
      assert ts[i := x][1..] == ts[1..][i - 1 := x];
      SumUpdate(ts[1..], i - 1, x);
    } else {
      assert ts[0 := x][1..] == ts[1..];
    }
  }

  lemma {:induction false} SumAtLeast(ts: seq<Task>, i: int)
    requires 0 <= i < |ts| && NoDebt(ts)
    ensures ts[i].ticks <= Sum(ts)
  {
    assert NoDebt(ts[1..]);
    if i > 0 { SumAtLeast(ts[1..], i - 1); } else { SumNonNegative(ts[1..]); }
  }

  lemma {:induction false} SumNonNegative(ts: seq<Task>)
    requires NoDebt(ts)
    ensures Sum(ts) >= 0
  {
    if ts != [] { SumNonNegative(ts[1..]); }
  }

  predicate NoDebt(ts: seq<Task>) {
    forall i :: 0 <= i < |ts| ==> ts[i].ticks >= 0
  }

  /** All the credit there is, plus one when the current process has run out of its own. */
  function Potential(s: Sched): int
    requires 0 <= s.cur < |s.tasks|
  {
    Sum(s.tasks) + if s.tasks[s.cur].ticks == 0 then 1 else 0
  }

  function ClockTicks(es: seq<Event>): nat {
    if es == [] then 0 else (if es[0].Tick? && !es[0].reentrant then 1 else 0) + ClockTicks(es[1..])
  }

  /** `t` is runnable with credit but not running. */
  predicate Waiting(s: Sched, t: int) {
    0 <= t < |s.tasks| && s.tasks[t].runnable && s.tasks[t].ticks > 0 && s.cur != t
  }

  lemma TickSpends(s: Sched, reentrant: bool, wake: Option<int>, s': Sched, t: int)
    requires Next(s, Tick(reentrant, wake), s') && Waiting(s, t) && NoDebt(s.tasks)
    ensures Waiting(s', t) || s'.cur == t
    ensures NoDebt(s'.tasks) && |s'.tasks| == |s.tasks| && s'.tasks[t].ticks == s.tasks[t].ticks
      && 0 <= s'.cur < |s.tasks|
    ensures Potential(s') + (if reentrant then 0 else 1) <= Potential(s)
  {
    var sp := Spend(s.tasks, s.cur);
    var ts := Woken(sp, wake);
    assert ts[t].runnable && ts[t].ticks > 0;
    assert HasCredit(ts);
    if s.tasks[s.cur].ticks != 0 { SumUpdate(s.tasks, s.cur, sp[s.cur]); }
    if wake.Some? { SumUpdate(sp, wake.value, ts[wake.value]); }
  }

  /** While `t` waits there is no refill: its credit stays, nobody's grows, and every
      non-reentrant clock interrupt uses some up. */
  lemma StepSpends(s: Sched, e: Event, s': Sched, t: int)
    requires Next(s, e, s') && Waiting(s, t) && NoDebt(s.tasks)
    requires 0 <= s'.cur < |s'.tasks| && s'.cur != t && t < |s'.tasks| && s'.tasks[t].runnable
    ensures Waiting(s', t) && NoDebt(s'.tasks) && s'.tasks[t].ticks == s.tasks[t].ticks
    ensures Potential(s') + ClockTicks([e]) <= Potential(s)
  {
    match e
    case Tick(reentrant, wake) => TickSpends(s, reentrant, wake, s', t);
    case Block =>
      var ts := SetFlag(s.tasks, s.cur, false);
      SumUpdate(s.tasks, s.cur, ts[s.cur]);
      assert ts[t].runnable && ts[t].ticks > 0;
      assert HasCredit(ts);
    case SetRunnable(q, b) =>
      SumUpdate(s.tasks, q, s.tasks[q].(runnable := b));
  }

  /** A run of the scheduler: `ss[i]` goes to `ss[i + 1]` by `es[i]`. */
  predicate IsRun(ss: seq<Sched>, es: seq<Event>) {
    |ss| == |es| + 1 && forall i :: 0 <= i < |es| ==> Next(ss[i], es[i], ss[i + 1])
  }

  /** In every state of the run `t` is runnable and somebody else is running. */
  predicate KeptWaiting(ss: seq<Sched>, t: int) {
    forall i :: 0 <= i < |ss| ==>
      0 <= ss[i].cur < |ss[i].tasks| && ss[i].cur != t && 0 <= t < |ss[i].tasks| && ss[i].tasks[t].runnable
  }

  /** Starvation bound: a process that stays runnable with credit is kept from the CPU for fewer
      non-reentrant clock interrupts than all the credit in the table, its own not counted. */
  lemma {:induction false} StarvationBound(ss: seq<Sched>, es: seq<Event>, t: int)
    requires IsRun(ss, es) && KeptWaiting(ss, t)
    requires Waiting(ss[0], t) && NoDebt(ss[0].tasks)
    ensures ClockTicks(es) <= Potential(ss[0]) - ss[0].tasks[t].ticks
    decreases |es|
  {
    if es == [] {
      SumAtLeast(ss[0].tasks, t);
    } else {
      assert Next(ss[0], es[0], ss[1]);
      StepSpends(ss[0], es[0], ss[1], t);
      StarvationBound(ss[1..], es[1..], t);
      assert ClockTicks([es[0]]) + ClockTicks(es[1..]) == ClockTicks(es);
    }
  }
}
