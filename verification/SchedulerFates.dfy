// What the scheduler's calls do to each thread, and to the nesting of critical
// sections, whatever else they do: who can run afterwards is a matter of the calls
// that name the thread.

module SchedulerFates {
  import opened Common
  import opened Bits
  import opened Scheduler
  import opened SchedulerRuns

  datatype Life = Unborn | Asleep | Awake | Gone

  function LifeOf(c: Tcb): Life {
    match c.stat
    case Init => Unborn
    case Suspended => Asleep
    case Ready => Awake
    case Running => Awake
    case Closed => Gone
  }

  // What a call that names a thread makes of it.
  function Fate(l: Life, step: Step, t: nat, running: bool): Life {
    match step
    case DoStartup(u) => if u == t then Awake else l
    case DoResume(u) => if u == t && l == Asleep then Awake else l
    case DoReady(u) => if u == t && l == Asleep then Awake else l
    case DoSuspend(u) => if u == t && l == Awake then Asleep else l
    case DoPark(u) => if u == t && l == Awake then Asleep else l
    case DoDetach(u) => if u == t then Gone else l
    case DoQuit => if running then Gone else l
    case _ => l
  }

  // The priorities that a thread has had from rt_thread_init or rt_thread_control.
  ghost predicate SameOrders(c: Tcb, d: Tcb) {
    d.init == c.init && d.prio == c.prio && d.initTick == c.initTick
  }

  ghost predicate SameLife(c: Tcb, d: Tcb) {
    SameOrders(c, d) && LifeOf(d) == LifeOf(c)
  }

  // A switch takes the CPU from one thread and gives it to another; nobody else
  // is touched, and nobody falls asleep or wakes up by it.
  lemma ScheduleKeeps(s: State, t: nat)
    requires Wf(s) && t < |s.ts|
    ensures var r := Schedule(s);
      && |r.ts| == |s.ts| && r.nest == s.nest && (s.nest > 0 ==> r.current == s.current && r.ts == s.ts)
      && SameLife(s.ts[t], r.ts[t])
      && (t != s.current && t != r.current ==> r.ts[t] == s.ts[t])
  {
    var h := Highest(s.queues, 0);
    if s.nest == 0 && h < PRIORITY_MAX && !KeepsRunning(s.ts[s.current], h) { SwitchThread(s, h, t); }
  }

  // --- every call ----------------------------------------------------------------

  lemma ReadyFate(s: State, u: nat, t: nat)
    requires Wf(s) && u < |s.ts| && t < |s.ts|
    ensures var r := MakeReady(s, u);
      && |r.ts| == |s.ts| && r.nest == s.nest && r.current == s.current && SameOrders(s.ts[t], r.ts[t])
      && LifeOf(r.ts[t]) == Fate(LifeOf(s.ts[t]), DoReady(u), t, t == s.current)
      && (t != u ==> r.ts[t] == s.ts[t])
  {}

  lemma ResumeFate(s: State, u: nat, t: nat)
    requires Wf(s) && u < |s.ts| && t < |s.ts|
    ensures var r := Resume(s, u);
      && |r.ts| == |s.ts| && r.nest == s.nest && (s.nest > 0 ==> r.current == s.current)
      && SameOrders(s.ts[t], r.ts[t])
      && LifeOf(r.ts[t]) == Fate(LifeOf(s.ts[t]), DoResume(u), t, t == s.current)
      && (t != u && t != s.current && t != r.current ==> r.ts[t] == s.ts[t])
  {
    hide Schedule, Insert;
    ReadyFate(s, u, t);
    if s.ts[u].stat == Suspended { ScheduleKeeps(MakeReady(s, u), t); }
  }

  lemma StartupFate(s: State, u: nat, t: nat)
    requires Wf(s) && u < |s.ts| && s.ts[u].stat == Init && t < |s.ts|
    ensures var r := Startup(s, u);
      && |r.ts| == |s.ts| && r.nest == s.nest && (s.nest > 0 ==> r.current == s.current)
      && SameOrders(s.ts[t], r.ts[t])
      && LifeOf(r.ts[t]) == Fate(LifeOf(s.ts[t]), DoStartup(u), t, t == s.current)
  {
    hide Resume;
    var c := s.ts[u];
    var s1 := s.(ts := s.ts[u := c.(mask := Pow2(c.prio), stat := Suspended)]);
    assert ThreadOk(s, u);
    UnqueuedWf(s, u, s1.ts[u]);
    ResumeFate(s1, u, t);
  }

  lemma SuspendFate(s: State, u: nat, t: nat)
    requires Wf(s) && u < |s.ts| && t < |s.ts|
    ensures var r := SuspendAndGo(s, u);
      && |r.ts| == |s.ts| && r.nest == s.nest && (s.nest > 0 ==> r.current == s.current)
      && SameOrders(s.ts[t], r.ts[t])
      && LifeOf(r.ts[t]) == Fate(LifeOf(s.ts[t]), DoSuspend(u), t, t == s.current)
  {
    hide Schedule;
    SuspendWf(s, u);
    if u == s.current { ScheduleKeeps(Suspend(s, u), t); }
  }

  lemma YieldFate(s: State, t: nat)
    requires Wf(s) && t < |s.ts|
    ensures var r := Yield(s);
      |r.ts| == |s.ts| && r.nest == s.nest && (s.nest > 0 ==> r.current == s.current) && SameLife(s.ts[t], r.ts[t])
  {
    hide Schedule;
    assert ThreadOk(s, s.current);
    UnqueuedWf(s, s.current, GiveSlice(s).ts[s.current]);
    ScheduleKeeps(GiveSlice(s), t);
  }

  lemma LeaveFate(s: State, t: nat)
    requires Wf(s) && t < |s.ts|
    ensures var r := Leave(s);
      && |r.ts| == |s.ts| && r.nest == Deeper(s.nest, DoLeave) && (s.nest > 1 ==> r.current == s.current)
      && SameLife(s.ts[t], r.ts[t])
  {
    hide Schedule;
    if s.nest <= 1 && s.pend {
      LockWf(s, 0, false);
      ScheduleKeeps(s.(nest := 0, pend := false), t);
    }
  }

  lemma QuitFate(s: State, t: nat)
    requires Wf(s) && t < |s.ts|
    ensures var r := Quit(s);
      && |r.ts| == |s.ts| && r.nest == s.nest && (s.nest > 0 ==> r.current == s.current)
      && SameOrders(s.ts[t], r.ts[t])
      && LifeOf(r.ts[t]) == Fate(LifeOf(s.ts[t]), DoQuit, t, t == s.current)
  {
    hide Schedule, Leave;
    LockWf(s, s.nest + 1, s.pend);
    var s1 := Enter(s);
    CloseWf(s1, s1.current);
    var s2 := Close(s1, s1.current);
    ScheduleKeeps(s2, t);
    ScheduleWf(s2);
    LeaveFate(Schedule(s2), t);
  }

  lemma DetachFate(s: State, u: nat, t: nat)
    requires Wf(s) && u < |s.ts| && u != s.current && t < |s.ts|
    ensures var r := Detach(s, u);
      && |r.ts| == |s.ts| && r.nest == s.nest && (s.nest > 0 ==> r.current == s.current)
      && SameOrders(s.ts[t], r.ts[t])
      && LifeOf(r.ts[t]) == Fate(LifeOf(s.ts[t]), DoDetach(u), t, t == s.current)
  {
    hide Schedule, Leave;
    LockWf(s, s.nest + 1, s.pend);
    CloseWf(Enter(s), u);
    LeaveFate(Close(Enter(s), u), t);
  }

  // How deep the nesting is after a call.
  function Deeper(n: nat, step: Step): nat {
    match step
    case DoEnter => n + 1
    case DoLeave => if n > 0 then n - 1 else 0
    case _ => n
  }

  // A step changes who can run, who has which priority, and how deep the nesting is
  // exactly as the call says; while the lock is held it does not change who runs.
  lemma NextFate(s: State, step: Step, t: nat)
    requires Lawful(s) && Allowed(s, step) && t < |s.ts|
    ensures var r := Next(s, step);
      && |r.ts| == |s.ts| && r.nest == Deeper(s.nest, step)
      && LifeOf(r.ts[t]) == Fate(LifeOf(s.ts[t]), step, t, t == s.current)
      && r.ts[t].prio == (if step.DoSetPriority? && step.t == t then step.p else s.ts[t].prio)
      && r.ts[t].init == (if step.DoSetPriority? && step.t == t && step.reset then step.p else s.ts[t].init)
      && (s.nest > 0 && r.nest > 0 ==> r.current == s.current)
  {
    hide Schedule, Resume, Startup, SuspendAndGo, Yield, Leave, Quit, Detach;
    match step
    case DoResume(u) => ResumeFate(s, u, t);
    case DoStartup(u) => StartupFate(s, u, t);
    case DoSuspend(u) => SuspendFate(s, u, t);
    case DoYield => YieldFate(s, t);
    case DoTick(n) => YieldFate(s, t);
    case DoEnter =>
    case DoLeave => LeaveFate(s, t);
    case DoQuit => QuitFate(s, t);
    case DoDetach(u) => DetachFate(s, u, t);
    case DoSetPriority(u, p, reset) =>
    case DoReady(u) => ReadyFate(s, u, t);
    case DoPark(u) =>
    case DoSchedule => ScheduleKeeps(s, t);
  }

  // --- runs ------------------------------------------------------------------------

  // By the calls alone, from what the thread was at the start.
  ghost function LifeAfter(s: State, steps: seq<Step>, t: nat, l: Life): Life
    requires Lawful(s) && Legal(s, steps)
    decreases |steps|
  {
    if steps == [] then l
    else LifeAfter(Next(s, steps[0]), steps[1..], t, Fate(l, steps[0], t, t == s.current))
  }

  function DeepAfter(n: nat, steps: seq<Step>): nat
    decreases |steps|
  {
    if steps == [] then n else DeepAfter(Deeper(n, steps[0]), steps[1..])
  }

  // After any calls a thread can run, sleeps or is gone as the last call that names it
  // says; and the nesting is as deep as the enters and leaves make it.
  lemma {:induction false} RunFate(s: State, steps: seq<Step>, t: nat)
    requires Lawful(s) && Legal(s, steps) && t < |s.ts|
    ensures t < |Run(s, steps).ts| && Run(s, steps).nest == DeepAfter(s.nest, steps)
    ensures LifeOf(Run(s, steps).ts[t]) == LifeAfter(s, steps, t, LifeOf(s.ts[t]))
    decreases |steps|
  {
    hide Next, Fate, LifeOf;
    if steps != [] {
      NextFate(s, steps[0], t);
      RunFate(Next(s, steps[0]), steps[1..], t);
    }
  }

  // The nesting never gets down to 0.
  ghost predicate StaysDeep(n: nat, steps: seq<Step>)
    decreases |steps|
  {
    n > 0 && (steps == [] || StaysDeep(Deeper(n, steps[0]), steps[1..]))
  }

  // From the first enter to the last leave the same thread has the CPU, whatever is
  // called in between.
  lemma {:induction false} LockedNoSwitch(s: State, steps: seq<Step>)
    requires Lawful(s) && Legal(s, steps) && StaysDeep(s.nest, steps)
    ensures Run(s, steps).current == s.current && Run(s, steps).nest == DeepAfter(s.nest, steps) > 0
    decreases |steps|
  {
    hide Next;
    if steps != [] {
      NextFate(s, steps[0], s.current);
      LockedNoSwitch(Next(s, steps[0]), steps[1..]);
    }
  }

  function Repeat(step: Step, n: nat): (r: seq<Step>)
    ensures |r| == n
  {
    if n == 0 then [] else [step] + Repeat(step, n - 1)
  }

  // n enters need n leaves.
  lemma {:induction false} EnterLeaveBalance(d: nat, n: nat, k: nat)
    ensures DeepAfter(d, Repeat(DoEnter, n)) == d + n
    ensures DeepAfter(d + k, Repeat(DoLeave, k)) == d
    decreases n + k
  {
    if n > 0 { EnterLeaveBalance(d + 1, n - 1, 0); }
    if k > 0 { EnterLeaveBalance(d, 0, k - 1); }
  }

  // --- where a thread that wakes up finds itself -----------------------------------------

  // In front of its queue.
  lemma ReadyInFront(s: State, t: nat)
    requires Wf(s) && t < |s.ts| && s.ts[t].stat == Suspended
    ensures var r, p := MakeReady(s, t), s.ts[t].prio;
      && p < |s.queues|
      && if t == s.current then r.queues == s.queues && r.ts[t].stat == Running
         else r.queues == s.queues[p := [t] + s.queues[p]] && r.ts[t].stat == Ready
  {
    assert ThreadOk(s, t);
  }

  // If nobody had a better claim than the running thread, then the thread resumed
  // runs at once exactly if it has one and the lock is open, and otherwise stands in
  // front of its queue.
  lemma ResumeInFront(s: State, t: nat)
    requires Wf(s) && Settled(s) && t < |s.ts| && s.ts[t].stat == Suspended
    ensures var r, p := Resume(s, t), s.ts[t].prio;
      && t < |r.ts| && p < |s.queues| && p < |r.queues|
      && (r.ts[t].stat == Running <==> t == s.current || (s.nest == 0 && WakesRival(s, t)))
      && (r.ts[t].stat == Running <==> r.current == t)
      && (r.ts[t].stat != Running ==> r.ts[t].stat == Ready && r.queues[p] == [t] + s.queues[p])
  {
    ReadyInFront(s, t);
    var r, s1, p := Resume(s, t), MakeReady(s, t), s.ts[t].prio;
    assert ThreadOk(s, s.current) && ThreadOk(s, t);
    ReadySettled(s, t);
    var h := Highest(s1.queues, 0);
    if t == s.current {
      if h < PRIORITY_MAX { QueuedIsReady(s1, s1.queues[h][0], h); }
    } else {
      HighestReady(s1, t);
      QueuedIsReady(s1, s1.queues[h][0], h);
      if s1.queues[h][0] != t { assert Outranks(s, s1.queues[h][0]); }
      if s.nest == 0 && WakesRival(s, t) {
        SwitchThread(s1, h, t);
      }
    }
  }

  // A ready thread whose priority changes goes to the front of its new queue.
  lemma MovedInFront(s: State, t: nat, p: nat, reset: bool)
    requires Wf(s) && t < |s.ts| && p < PRIORITY_MAX && s.ts[t].stat == Ready
    ensures var r, q := SetPriority(s, t, p, reset), s.ts[t].prio;
      && q < |s.queues| && p < |r.queues|
      && r.queues[p] == [t] + (if p == q then Remove(s.queues[p], t) else s.queues[p])
      && forall i :: 0 <= i < |s.queues| && i != p ==> t !in r.queues[i]
  {
    assert ThreadOk(s, t);
    SetPriorityWf(s, t, p, reset);
    var r := SetPriority(s, t, p, reset);
    forall i | 0 <= i < |s.queues| && i != p ensures t !in r.queues[i] { ReadyIsQueued(r, t, i); }
  }
}
