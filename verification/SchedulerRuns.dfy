// Scheduler calls as they are made by the kernel, and what holds after any
// sequence of them.

module SchedulerRuns {
  import opened Common
  import opened Bits
  import opened Scheduler

  // --- the calls ---------------------------------------------------------------

  // rt_sched_thread_ready, as rt_susp_list_dequeue and rt_mutex_release call it:
  // nobody is rescheduled.
  function MakeReady(s: State, t: nat): (r: State)
    requires Wf(s) && t < |s.ts|
    ensures Wf(r)
  {
    if s.ts[t].stat == Suspended then
      assert ThreadOk(s, t);
      InsertWf(s, t);
      Insert(s, t)
    else s
  }

  // rt_thread_resume, and _thread_timeout
  function Resume(s: State, t: nat): State
    requires Wf(s) && t < |s.ts|
  {
    if s.ts[t].stat == Suspended then Schedule(MakeReady(s, t)) else s
  }

  // rt_thread_startup
  function Startup(s: State, t: nat): State
    requires Wf(s) && t < |s.ts| && s.ts[t].stat == Init
  {
    var c := s.ts[t];
    var s1 := s.(ts := s.ts[t := c.(mask := Pow2(c.prio), stat := Suspended)]);
    assert ThreadOk(s, t);
    UnqueuedWf(s, t, s1.ts[t]);
    Resume(s1, t)
  }

  // rt_thread_suspend_to_list, without the wait list
  function Suspend(s: State, t: nat): State
    requires Wf(s) && t < |s.ts|
  {
    var c := s.ts[t];
    if c.stat == Running then s.(ts := s.ts[t := c.(stat := Suspended)])
    else if c.stat == Ready then
      assert ThreadOk(s, t);
      s.(ts := s.ts[t := c.(stat := Suspended)], queues := Dequeue(s.queues, t, c))
    else s
  }

  // A thread that suspends itself calls rt_schedule next.
  function SuspendAndGo(s: State, t: nat): State
    requires Wf(s) && t < |s.ts|
  {
    SuspendWf(s, t);
    if t == s.current then Schedule(Suspend(s, t)) else Suspend(s, t)
  }

  // rt_sched_thread_yield
  function GiveSlice(s: State): State
    requires s.current < |s.ts|
  {
    var c := s.ts[s.current];
    s.(ts := s.ts[s.current := c.(tick := c.initTick, yielded := true)])
  }

  // rt_thread_yield
  function Yield(s: State): State
    requires Wf(s)
  {
    assert ThreadOk(s, s.current);
    UnqueuedWf(s, s.current, GiveSlice(s).ts[s.current]);
    Schedule(GiveSlice(s))
  }

  // rt_sched_tick_increase
  function Tick(s: State, n: nat): State
    requires Wf(s)
  {
    var c := s.ts[s.current];
    if c.tick > n then s.(ts := s.ts[s.current := c.(tick := c.tick - n)])
    else
      Yield(s)
  }

  // rt_enter_critical
  function Enter(s: State): State {
    s.(nest := s.nest + 1)
  }

  // rt_exit_critical
  function Leave(s: State): State
    requires Wf(s)
  {
    if s.nest > 1 then s.(nest := s.nest - 1)
    else
      LockWf(s, 0, s.pend);
      LockWf(s, 0, false);
      if s.pend then Schedule(s.(nest := 0, pend := false)) else s.(nest := 0)
  }

  // rt_thread_close
  function Close(s: State, t: nat): State
    requires Wf(s) && t < |s.ts|
  {
    var c := s.ts[t];
    if c.stat == Closed then s
    else
      assert ThreadOk(s, t);
      var shut := c.(stat := Closed, yielded := false);
      s.(ts := s.ts[t := shut], queues := if c.stat == Ready then Dequeue(s.queues, t, c) else s.queues)
  }

  lemma SuspendWf(s: State, t: nat)
    requires Wf(s) && t < |s.ts|
    ensures Wf(Suspend(s, t))
  {
    var c := s.ts[t].(stat := Suspended);
    assert ThreadOk(s, t);
    if s.ts[t].stat == Running { UnqueuedWf(s, t, c); }
    else if s.ts[t].stat == Ready { DequeueWf(s, t, c); }
  }

  lemma CloseWf(s: State, t: nat)
    requires Wf(s) && t < |s.ts|
    ensures Wf(Close(s, t))
  {
    var c := s.ts[t].(stat := Closed, yielded := false);
    assert ThreadOk(s, t);
    if s.ts[t].stat == Ready { DequeueWf(s, t, c); }
    else if s.ts[t].stat != Closed { UnqueuedWf(s, t, c); }
  }

  // _thread_exit: close oneself inside a critical section, and schedule.
  function Quit(s: State): State
    requires Wf(s)
  {
    LockWf(s, s.nest + 1, s.pend);
    var s1 := Enter(s);
    CloseWf(s1, s1.current);
    ScheduleWf(Close(s1, s1.current));
    Leave(Schedule(Close(s1, s1.current)))
  }

  // _thread_detach of another thread
  function Detach(s: State, t: nat): State
    requires Wf(s) && t < |s.ts| && t != s.current
  {
    LockWf(s, s.nest + 1, s.pend);
    CloseWf(Enter(s), t);
    Leave(Close(Enter(s), t))
  }

  // --- priorities ------------------------------------------------------------------

  // _rt_sched_update_priority: a ready thread moves to the front of another
  // queue; nobody is rescheduled.
  function SetPriority(s: State, t: nat, p: nat, reset: bool): State
    requires Wf(s) && t < |s.ts| && p < PRIORITY_MAX
  {
    var c := s.ts[t];
    var d := c.(prio := p, mask := Pow2(p), init := if reset then p else c.init);
    if c.stat == Ready then
      assert ThreadOk(s, t);
      s.(ts := s.ts[t := d.(yielded := false)],
         queues := Queue(Dequeue(s.queues, t, c), t, d.(yielded := false)))
    else
      s.(ts := s.ts[t := d])
  }

  lemma SetPriorityWf(s: State, t: nat, p: nat, reset: bool)
    requires Wf(s) && t < |s.ts| && p < PRIORITY_MAX
    ensures Wf(SetPriority(s, t, p, reset))
  {
    var c := s.ts[t];
    var d := c.(
      prio := p, mask := Pow2(p), init := if reset then p else c.init, yielded := c.stat != Ready && c.yielded);
    assert ThreadOk(s, t);
    if c.stat == Ready {
      var out := d.(stat := Init);
      DequeueWf(s, t, out);
      var s1 := s.(ts := s.ts[t := out], queues := Dequeue(s.queues, t, c));
      EnqueueWf(s1, t, d);
      assert s1.ts[t := d] == s.ts[t := d];
    } else {
      UnqueuedWf(s, t, d);
    }
  }

  // rt_thread_control changes a priority without calling rt_schedule. This leaves
  // nobody outranking the running thread exactly if the new priority does not call
  // for a switch.
  lemma SetPrioritySettled(s: State, t: nat, p: nat, reset: bool)
    requires Wf(s) && Settled(s) && t < |s.ts| && p < PRIORITY_MAX
    ensures Settled(SetPriority(s, t, p, reset)) <==> !CallsForSwitch(s, t, p)
  {
    var r := SetPriority(s, t, p, reset);
    assert ThreadOk(s, s.current) && ThreadOk(s, t);
    if t == s.current {
      var h := Highest(s.queues, 0);
      if h < PRIORITY_MAX {
        QueuedIsReady(s, s.queues[h][0], h);
        assert Outranks(r, s.queues[h][0]) <==> !CallsForSwitch(s, t, p);
        assert Outranks(s, s.queues[h][0]);
      }
      forall u | 0 <= u < |r.ts| && r.ts[u].stat == Ready ensures !CallsForSwitch(s, t, p) ==> Outranks(r, u) {
        HighestReady(s, u);
        assert ThreadOk(s, u);
      }
    } else {
      if s.ts[t].stat == Ready { assert Outranks(s, t); assert Outranks(r, t) <==> !CallsForSwitch(s, t, p); }
      forall u | 0 <= u < |r.ts| && r.ts[u].stat == Ready && u != t ensures Outranks(r, u) {
        assert Outranks(s, u);
      }
    }
  }

  // Making a thread ready without a reschedule leaves nobody outranking the running
  // thread exactly if that thread does not either.
  lemma ReadySettled(s: State, t: nat)
    requires Wf(s) && Settled(s) && t < |s.ts|
    ensures Settled(MakeReady(s, t)) <==> !WakesRival(s, t)
  {
    var r := MakeReady(s, t);
    assert ThreadOk(s, s.current) && ThreadOk(s, t);
    if s.ts[t].stat == Suspended && t != s.current { assert Outranks(r, t) <==> Outranks(s, t); }
    forall u | 0 <= u < |r.ts| && r.ts[u].stat == Ready && u != t ensures Outranks(r, u) { assert Outranks(s, u); }
  }

  ghost predicate WakesRival(s: State, t: nat)
    requires s.current < |s.ts| && t < |s.ts|
  {
    s.ts[t].stat == Suspended && t != s.current && !Outranks(s, t)
  }

  // Suspending a thread without a reschedule does so exactly if that thread is not
  // the running one, or nobody else is ready.
  lemma ParkSettled(s: State, t: nat)
    requires Wf(s) && Settled(s) && t < |s.ts|
    ensures Settled(Suspend(s, t)) <==> !LeavesCpu(s, t)
  {
    var r, h := Suspend(s, t), Highest(s.queues, 0);
    assert ThreadOk(s, s.current) && ThreadOk(s, t);
    if t == s.current && h < PRIORITY_MAX {
      QueuedIsReady(s, s.queues[h][0], h);
      assert Outranks(s, s.queues[h][0]);
      assert !Outranks(r, s.queues[h][0]);
    }
    forall u | 0 <= u < |r.ts| && r.ts[u].stat == Ready ensures !LeavesCpu(s, t) ==> Outranks(r, u) {
      HighestReady(s, u);
      assert ThreadOk(s, u) && Outranks(s, u);
    }
  }

  predicate LeavesCpu(s: State, t: nat) {
    t == s.current && t < |s.ts| && s.ts[t].stat == Running && Highest(s.queues, 0) < |s.queues|
  }

  // What a caller of rt_thread_control can look at beforehand.
  predicate CallsForSwitch(s: State, t: nat, p: nat)
    requires s.current < |s.ts| && t < |s.ts|
  {
    var c, h := s.ts[s.current], Highest(s.queues, 0);
    if t == s.current then h < |s.queues| && (h < p || (h == p && c.yielded))
    else s.ts[t].stat == Ready && (p < c.prio || (p == c.prio && c.yielded))
  }

  // --- what every call keeps ------------------------------------------------------

  // A reschedule is noted only while somebody holds the lock.
  ghost predicate Lawful(s: State) {
    Wf(s) && (s.nest == 0 ==> !s.pend)
  }

  // Either nobody outranks the running thread, or a reschedule has been noted, or
  // one is owed: a priority was changed, a thread made ready or the running thread
  // suspended in a way that calls for a switch, and nobody has called rt_schedule since.
  ghost predicate Calm(s: State, owed: bool) {
    Lawful(s) && (!s.pend && !owed ==> Settled(s))
  }

  lemma ScheduleCalm(s: State)
    requires Lawful(s)
    ensures Calm(Schedule(s), false)
  {
    ScheduleWf(s);
    if s.nest == 0 { ScheduleSettles(s); }
  }

  // The same running thread, and nobody new to outrank it.
  ghost predicate NoNewRival(s: State, r: State, t: nat)
    requires t < |s.ts| == |r.ts|
  {
    r.ts[t].stat == Ready ==> s.ts[t].stat == Ready && s.ts[t].prio == r.ts[t].prio
  }

  lemma StillSettled(s: State, r: State)
    requires Settled(s) && r.current == s.current && |r.ts| == |s.ts|
    requires var c, d := s.ts[s.current], r.ts[s.current];
      c.stat == d.stat && c.prio == d.prio && c.yielded == d.yielded
    requires forall t :: 0 <= t < |s.ts| ==> NoNewRival(s, r, t)
    ensures Settled(r)
  {
    forall t | 0 <= t < |r.ts| && r.ts[t].stat == Ready ensures Outranks(r, t) {
      assert NoNewRival(s, r, t) && Outranks(s, t);
    }
  }

  lemma EnterCalm(s: State, owed: bool)
    requires Calm(s, owed)
    ensures Calm(Enter(s), owed)
  {
    LockWf(s, s.nest + 1, s.pend);
    if !s.pend && !owed { StillSettled(s, Enter(s)); }
  }

  // Leaving serves a request made while the lock was held.
  lemma LeaveCalm(s: State, owed: bool)
    requires Calm(s, owed)
    ensures Calm(Leave(s), owed && !(s.nest <= 1 && s.pend))
  {
    if s.nest > 1 {
      LockWf(s, s.nest - 1, s.pend);
      if !s.pend && !owed { StillSettled(s, Leave(s)); }
    } else {
      LockWf(s, 0, false);
      if s.pend {
        ScheduleCalm(s.(nest := 0, pend := false));
      } else if !owed {
        StillSettled(s, Leave(s));
      }
    }
  }

  lemma CloseOtherCalm(s: State, t: nat, owed: bool)
    requires Calm(s, owed) && t < |s.ts| && t != s.current
    ensures Calm(Close(s, t), owed)
  {
    CloseWf(s, t);
    if !s.pend && !owed { StillSettled(s, Close(s, t)); }
  }

  // --- runs -------------------------------------------------------------------------

  datatype Step = DoResume(t: nat) | DoStartup(t: nat) | DoSuspend(t: nat) | DoYield | DoTick(n: nat)
    | DoEnter | DoLeave | DoQuit | DoDetach(t: nat) | DoSetPriority(t: nat, p: nat, reset: bool)
    | DoReady(t: nat) | DoPark(t: nat) | DoSchedule   // the parts by themselves

  // What a step's caller has to respect: the assertions in the code.
  ghost predicate Allowed(s: State, step: Step) {
    match step
    case DoResume(t) => t < |s.ts|
    case DoStartup(t) => t < |s.ts| && s.ts[t].stat == Init
    case DoSuspend(t) => t < |s.ts|
    case DoDetach(t) => t < |s.ts| && t != s.current
    case DoSetPriority(t, p, _) => t < |s.ts| && p < PRIORITY_MAX
    case DoReady(t) => t < |s.ts|
    case DoPark(t) => t < |s.ts|
    case _ => true
  }

  ghost function Next(s: State, step: Step): (r: State)
    requires Lawful(s) && Allowed(s, step)
    ensures Lawful(r)
  {
    match step
    case DoResume(t) => ResumeCalm(s, t, true); Resume(s, t)
    case DoStartup(t) => StartupCalm(s, t); Startup(s, t)
    case DoSuspend(t) => SuspendCalm(s, t, true); SuspendAndGo(s, t)
    case DoYield => YieldCalm(s); Yield(s)
    case DoTick(n) => TickCalm(s, n, true); Tick(s, n)
    case DoEnter => EnterCalm(s, true); Enter(s)
    case DoLeave => LeaveCalm(s, true); Leave(s)
    case DoQuit => QuitCalm(s); Quit(s)
    case DoDetach(t) => DetachCalm(s, t, true); Detach(s, t)
    case DoSetPriority(t, p, reset) => SetPriorityWf(s, t, p, reset); SetPriority(s, t, p, reset)
    case DoReady(t) => MakeReady(s, t)
    case DoPark(t) => SuspendWf(s, t); Suspend(s, t)
    case DoSchedule => ScheduleCalm(s); Schedule(s)
  }

  // Is a switch owed after the step? A change of priority may call for one, and so
  // may a thread made ready or suspended without more; whatever calls rt_schedule, at
  // once or when the lock is left, settles it.
  ghost predicate Owed(s: State, step: Step, owed: bool)
    requires Lawful(s) && Allowed(s, step)
  {
    match step
    case DoResume(t) => owed && s.ts[t].stat != Suspended
    case DoStartup(_) => false
    case DoSuspend(t) => owed && t != s.current
    case DoYield => false
    case DoTick(n) => owed && s.ts[s.current].tick > n
    case DoEnter => owed
    case DoLeave => owed && !(s.nest <= 1 && s.pend)
    case DoQuit => false
    case DoDetach(_) => owed
    case DoSetPriority(t, p, _) => owed || CallsForSwitch(s, t, p)
    case DoReady(t) => owed || WakesRival(s, t)
    case DoPark(t) => owed || LeavesCpu(s, t)
    case DoSchedule => false
  }

  lemma NextCalm(s: State, step: Step, owed: bool)
    requires Calm(s, owed) && Allowed(s, step)
    ensures Calm(Next(s, step), Owed(s, step, owed))
  {
    match step
    case DoResume(t) => ResumeCalm(s, t, owed);
    case DoStartup(t) => StartupCalm(s, t);
    case DoSuspend(t) => SuspendCalm(s, t, owed);
    case DoYield => YieldCalm(s);
    case DoTick(n) => TickCalm(s, n, owed);
    case DoEnter => EnterCalm(s, owed);
    case DoLeave => LeaveCalm(s, owed);
    case DoQuit => QuitCalm(s);
    case DoDetach(t) => DetachCalm(s, t, owed);
    case DoSetPriority(t, p, reset) =>
      SetPriorityWf(s, t, p, reset);
      if !s.pend && !owed { SetPrioritySettled(s, t, p, reset); }
    case DoReady(t) => if !s.pend && !owed { ReadySettled(s, t); }
    case DoPark(t) =>
      SuspendWf(s, t);
      if !s.pend && !owed { ParkSettled(s, t); }
    case DoSchedule => ScheduleCalm(s);
  }

  lemma ResumeCalm(s: State, t: nat, owed: bool)
    requires Calm(s, owed) && t < |s.ts|
    ensures Calm(Resume(s, t), owed && s.ts[t].stat != Suspended)
  {
    if s.ts[t].stat == Suspended {
      InsertWf(s, t);
      ScheduleCalm(Insert(s, t));
    }
  }

  lemma StartupCalm(s: State, t: nat)
    requires Lawful(s) && t < |s.ts| && s.ts[t].stat == Init
    ensures Calm(Startup(s, t), false)
  {
    var c := s.ts[t];
    var s1 := s.(ts := s.ts[t := c.(mask := Pow2(c.prio), stat := Suspended)]);
    assert ThreadOk(s, t);
    UnqueuedWf(s, t, s1.ts[t]);
    InsertWf(s1, t);
    ScheduleCalm(Insert(s1, t));
  }

  lemma SuspendCalm(s: State, t: nat, owed: bool)
    requires Calm(s, owed) && t < |s.ts|
    ensures Calm(SuspendAndGo(s, t), owed && t != s.current)
  {
    SuspendWf(s, t);
    if t == s.current {
      ScheduleCalm(Suspend(s, t));
    } else if !s.pend && !owed {
      assert ThreadOk(s, t);
      StillSettled(s, Suspend(s, t));
    }
  }

  lemma YieldCalm(s: State)
    requires Lawful(s)
    ensures Calm(Yield(s), false)
  {
    assert ThreadOk(s, s.current);
    UnqueuedWf(s, s.current, GiveSlice(s).ts[s.current]);
    ScheduleCalm(GiveSlice(s));
  }

  lemma TickCalm(s: State, n: nat, owed: bool)
    requires Calm(s, owed)
    ensures Calm(Tick(s, n), owed && s.ts[s.current].tick > n)
  {
    var c := s.ts[s.current];
    if c.tick > n {
      assert ThreadOk(s, s.current);
      UnqueuedWf(s, s.current, c.(tick := c.tick - n));
      if !s.pend && !owed { StillSettled(s, Tick(s, n)); }
    } else {
      YieldCalm(s);
    }
  }

  lemma QuitCalm(s: State)
    requires Lawful(s)
    ensures Calm(Quit(s), false)
  {
    LockWf(s, s.nest + 1, s.pend);
    var s1 := Enter(s);
    CloseWf(s1, s1.current);
    ScheduleCalm(Close(s1, s1.current));
    LeaveCalm(Schedule(Close(s1, s1.current)), false);
  }

  lemma DetachCalm(s: State, t: nat, owed: bool)
    requires Calm(s, owed) && t < |s.ts| && t != s.current
    ensures Calm(Detach(s, t), owed)
  {
    EnterCalm(s, owed);
    CloseOtherCalm(Enter(s), t, owed);
    LeaveCalm(Close(Enter(s), t), owed);
  }

  ghost predicate Legal(s: State, steps: seq<Step>)
    requires Lawful(s)
    decreases |steps|
  {
    steps == [] || (Allowed(s, steps[0]) && Legal(Next(s, steps[0]), steps[1..]))
  }

  ghost function Run(s: State, steps: seq<Step>): (r: State)
    requires Lawful(s) && Legal(s, steps)
    ensures Lawful(r)
    decreases |steps|
  {
    if steps == [] then s else Run(Next(s, steps[0]), steps[1..])
  }

  ghost predicate OwedAfter(s: State, steps: seq<Step>, owed: bool)
    requires Lawful(s) && Legal(s, steps)
    decreases |steps|
  {
    if steps == [] then owed else OwedAfter(Next(s, steps[0]), steps[1..], Owed(s, steps[0], owed))
  }

  lemma {:induction false} RunCalm(s: State, steps: seq<Step>, owed: bool)
    requires Calm(s, owed) && Legal(s, steps)
    ensures Calm(Run(s, steps), OwedAfter(s, steps, owed))
    decreases |steps|
  {
    if steps != [] {
      NextCalm(s, steps[0], owed);
      RunCalm(Next(s, steps[0]), steps[1..], Owed(s, steps[0], owed));
    }
  }

  // rt_system_scheduler_start: the first switch, from no thread at all.
  ghost predicate Startable(ts: seq<Tcb>, queues: seq<seq<nat>>) {
    && |queues| == PRIORITY_MAX
    && (exists p :: 0 <= p < PRIORITY_MAX && queues[p] != [])
    && var s := State(ts, queues, |ts|, 0, false);
      && (forall t :: 0 <= t < |ts| ==> ThreadOk(s, t) && ts[t].stat != Running && !ts[t].yielded)
      && (forall p :: 0 <= p < PRIORITY_MAX ==> QueueOk(s, p))
  }

  ghost function FirstSwitch(ts: seq<Tcb>, queues: seq<seq<nat>>): State
    requires Startable(ts, queues)
  {
    var h := Highest(queues, 0);
    var to := queues[h][0];
    var s := State(ts, queues, |ts|, 0, false);
    assert QueueOk(s, h) && Entry(s, h, 0);
    State(ts[to := ts[to].(stat := Running)], queues[h := Remove(queues[h], to)], to, 0, false)
  }

  ghost function Start(ts: seq<Tcb>, queues: seq<seq<nat>>): (r: State)
    requires Startable(ts, queues)
    ensures Calm(r, false)
  {
    FirstSwitchCalm(ts, queues);
    FirstSwitch(ts, queues)
  }

  lemma FirstSwitchCalm(ts: seq<Tcb>, queues: seq<seq<nat>>)
    requires Startable(ts, queues)
    ensures Calm(FirstSwitch(ts, queues), false)
  {
    var r, h := FirstSwitch(ts, queues), Highest(queues, 0);
    var to := queues[h][0];
    var s := State(ts, queues, |ts|, 0, false);
    assert QueueOk(s, h) && Entry(s, h, 0) && ThreadOk(s, to);
    forall p | 0 <= p < PRIORITY_MAX ensures QueueOk(r, p) {
      assert QueueOk(s, p);
      RemoveNoDup(queues[p], to);
      forall i | 0 <= i < |r.queues[p]| ensures Belongs(r, p, r.queues[p][i]) {
        var t := r.queues[p][i];
        var j :| 0 <= j < |queues[p]| && queues[p][j] == t;
        assert Entry(s, p, j);
      }
      QueueMade(r, p, r.queues[p], to);
    }
    forall t | 0 <= t < |r.ts| ensures ThreadOk(r, t) { assert ThreadOk(s, t); }
    forall t | 0 <= t < |r.ts| && r.ts[t].stat == Ready ensures Outranks(r, t) {
      assert ThreadOk(s, t);
    }
  }

  // The theorem: after any calls at all, and parts of calls that do not reschedule, a
  // thread is ready exactly if it is in the queue of its priority, and only the
  // running thread carries the YIELD flag; with the lock open, and no switch owed, a
  // thread is running and no ready one has a better claim.
  lemma NeverOutranked(ts: seq<Tcb>, queues: seq<seq<nat>>, steps: seq<Step>, t: nat)
    requires Startable(ts, queues) && Legal(Start(ts, queues), steps)
    requires t < |Run(Start(ts, queues), steps).ts|
    ensures var s := Run(Start(ts, queues), steps);
      && s.current < |s.ts| && s.ts[t].prio < |s.queues|
      && (s.ts[t].stat == Ready <==> t in s.queues[s.ts[t].prio])
      && (s.ts[t].yielded ==> t == s.current)
    ensures var s := Run(Start(ts, queues), steps);
      s.ts[t].stat == Ready && s.nest == 0 && !OwedAfter(Start(ts, queues), steps, false) ==>
        && s.ts[s.current].stat == Running
        && s.ts[s.current].prio <= s.ts[t].prio
        && (s.ts[s.current].yielded ==> s.ts[s.current].prio < s.ts[t].prio)
  {
    var s := Run(Start(ts, queues), steps);
    RunCalm(Start(ts, queues), steps, false);
    assert ThreadOk(s, t);
    ReadyIsQueued(s, t, s.ts[t].prio);
    if s.ts[t].stat == Ready && s.nest == 0 && !OwedAfter(Start(ts, queues), steps, false) {
      assert Outranks(s, t);
    }
  }

  // A run that owes a switch: thread 0 runs at 10, thread 1 is ready at 20, and
  // rt_thread_control sets it to 5.
  function TwoThreads(): seq<Tcb> {
    [Tcb(10, 10, Pow2(10), Ready, false, 10, 10), Tcb(20, 20, Pow2(20), Ready, false, 10, 10)]
  }

  function TwoQueues(): seq<seq<nat>> {
    seq(PRIORITY_MAX, p => if p == 10 then [0] else if p == 20 then [1] else [])
  }

  lemma TwoStart()
    ensures Startable(TwoThreads(), TwoQueues())
    ensures var s := FirstSwitch(TwoThreads(), TwoQueues());
      && s.current == 0 && |s.ts| == 2 && s.nest == 0
      && s.ts[0].stat == Running && s.ts[0].prio == 10 && s.ts[1].stat == Ready && s.ts[1].prio == 20
  {
    hide Pow2;
    var ts, queues := TwoThreads(), TwoQueues();
    var s := State(ts, queues, |ts|, 0, false);
    assert queues[10] == [0] && queues[20] == [1];
    forall t | 0 <= t < |ts| ensures ThreadOk(s, t) {}
    forall p | 0 <= p < PRIORITY_MAX ensures QueueOk(s, p) {
      forall i | 0 <= i < |queues[p]| ensures Entry(s, p, i) {}
    }
    assert Highest(queues, 0) == 10;
  }

  lemma SwitchOwedReachable()
    ensures Startable(TwoThreads(), TwoQueues())
    ensures var s, steps := Start(TwoThreads(), TwoQueues()), [DoSetPriority(1, 5, false)];
      && Legal(s, steps) && Run(s, steps) == SetPriority(s, 1, 5, false)
      && Settled(s) && CallsForSwitch(s, 1, 5) && !Settled(Run(s, steps)) && Run(s, steps).nest == 0
  {
    hide FirstSwitch, TwoThreads, TwoQueues;
    TwoStart();
    var s, step := Start(TwoThreads(), TwoQueues()), DoSetPriority(1, 5, false);
    assert Next(s, step) == SetPriority(s, 1, 5, false);
    assert [step][1..] == [];
    SetPrioritySettled(s, 1, 5, false);
  }

  // A reschedule asked for under the lock is served when the outermost critical
  // section is left, however deep the nesting.
  ghost function LeaveAll(s: State, depth: nat): (r: State)
    requires Lawful(s)
    ensures Lawful(r)
    decreases depth
  {
    if depth == 0 then s
    else
      LeaveCalm(s, true);
      LeaveAll(Leave(s), depth - 1)
  }

  lemma {:induction false} OutermostLeaveServes(s: State, owed: bool)
    requires Calm(s, owed) && s.nest > 0
    ensures var r := LeaveAll(s, s.nest);
      && r.nest == 0 && !r.pend && (s.pend || !owed ==> Settled(r))
      && r == (if s.pend then Schedule(Unlocked(s)) else Unlocked(s))
    decreases s.nest
  {
    LeaveCalm(s, owed);
    if s.nest > 1 {
      OutermostLeaveServes(Leave(s), owed);
      assert LeaveAll(Leave(s), s.nest - 1) == LeaveAll(s, s.nest);
    } else {
      assert LeaveAll(Leave(s), 0) == LeaveAll(s, 1);
    }
  }

  ghost function Unlocked(s: State): (r: State)
    requires Wf(s)
    ensures Wf(r)
  {
    LockWf(s, 0, false);
    s.(nest := 0, pend := false)
  }
}
