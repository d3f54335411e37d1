// Whole runs of the mutex protocol.

module MutexRuns {
  import opened Common
  import opened MutexModel
  import opened MutexSteps
  import opened MutexSafety
  import opened MutexExact
  import opened MutexTimeout
  import opened MutexControl

  datatype Step =
    | DoTake(t: nat, m: nat, wait: bool)   // rt_mutex_take, or trytake
    | DoRelease(t: nat, m: nat)
    | DoWake(t: nat, e: Err)               // timeout or resume of a waiter
    | DoGiveUp(t: nat)                     // the woken waiter runs
    | DoCeiling(m: nat, p: nat)
    | DoSleep(t: nat)                      // on something other than a mutex
    | DoResume(t: nat)
    | DoControl(t: nat, p: nat, reset: bool)  // rt_thread_control writes a priority

  ghost predicate Enabled(s: Sys, step: Step) {
    match step
    case DoTake(t, m, _) => Running(s, t) && m < |s.ms|
    case DoRelease(t, m) => Running(s, t) && m < |s.ms|
    case DoWake(t, _) => Chained(s, t)
    case DoGiveUp(t) => Woken(s, t)
    case DoCeiling(m, _) => m < |s.ms|
    case DoSleep(t) => Running(s, t)
    case DoResume(t) => t < |s.ts| && s.ts[t].suspended && s.ts[t].pending.None?
    case DoControl(t, p, _) => t < |s.ts| && p < PRIORITY_MAX
  }

  ghost function Next(s: Sys, step: Step): (r: Sys)
    requires Wf(s) && Enabled(s, step)
    ensures Wf(r)
  {
    match step
    case DoTake(t, m, wait) => Take(s, t, m, wait)
    case DoRelease(t, m) => Release(s, t, m)
    case DoWake(t, e) => Wake(s, t, e)
    case DoGiveUp(t) => GiveUp(s, t)
    case DoCeiling(m, p) => SetCeiling(s, m, p)
    case DoSleep(t) => Sleep(s, t, true)
    case DoResume(t) => Sleep(s, t, false)
    case DoControl(t, p, reset) => Assigned(s, t, p, reset)
  }

  // Every step finds its caller where it expects it.
  ghost predicate Legal(s: Sys, steps: seq<Step>)
    requires Wf(s)
    decreases |steps|
  {
    steps == [] || (Enabled(s, steps[0]) && Legal(Next(s, steps[0]), steps[1..]))
  }

  ghost function Run(s: Sys, steps: seq<Step>): (r: Sys)
    requires Wf(s) && Legal(s, steps)
    ensures Wf(r)
    decreases |steps|
  {
    if steps == [] then s else Run(Next(s, steps[0]), steps[1..])
  }

  // Freshly started threads and freshly initialised mutexes.
  ghost function Boot(prios: seq<nat>, mutexes: nat): (s: Sys)
    requires forall i :: 0 <= i < |prios| ==> prios[i] < PRIORITY_MAX
    ensures Exact(s) && NoInversion(s)
  {
    BootExact(prios, mutexes);
    Initial(prios, mutexes)
  }

  function Initial(prios: seq<nat>, mutexes: nat): Sys {
    Sys(seq(|prios|, i requires 0 <= i < |prios| => Thread(prios[i], prios[i], false, None, [], EOK)),
        seq(mutexes, i => Mutex(None, NO_PRIORITY, 0, NO_PRIORITY, [])))
  }

  lemma BootExact(prios: seq<nat>, mutexes: nat)
    requires forall i :: 0 <= i < |prios| ==> prios[i] < PRIORITY_MAX
    ensures Exact(Initial(prios, mutexes)) && NoInversion(Initial(prios, mutexes))
  {
    var s := Initial(prios, mutexes);
    forall t | 0 <= t < |s.ts| ensures ThreadOk(s, t) && Paid(s, t) {}
    forall m | 0 <= m < |s.ms| ensures MutexOk(s, m) && FreshUnless(s, m, {}) && Guarded(s, m) {}
  }

  // The mutex code keeps the invariant whatever it is called with; only a priority
  // written from outside can break it, and does exactly if it does not fit.
  ghost predicate Fits(s: Sys, step: Step)
    requires Enabled(s, step)
  {
    step.DoControl? ==> Bears(s, step.t, step.p)
  }

  lemma NextGuards(s: Sys, step: Step)
    requires NoInversion(s) && Enabled(s, step)
    ensures NoInversion(Next(s, step)) <==> Fits(s, step)
  {
    match step
    case DoTake(t, m, wait) => TakeGuards(s, t, m, wait);
    case DoRelease(t, m) => ReleaseGuards(s, t, m);
    case DoWake(t, e) => WakeGuards(s, t, e);
    case DoGiveUp(t) => GiveUpGuards(s, t);
    case DoCeiling(m, p) => CeilingGuards(s, m, p);
    case DoSleep(t) => SleepGuards(s, t, true);
    case DoResume(t) => SleepGuards(s, t, false);
    case DoControl(t, p, reset) => AssignedGuards(s, t, p, reset);
  }

  // Every priority written from outside fits.
  ghost predicate Fitting(s: Sys, steps: seq<Step>)
    requires Wf(s) && Legal(s, steps)
    decreases |steps|
  {
    steps == [] || (Fits(s, steps[0]) && Fitting(Next(s, steps[0]), steps[1..]))
  }

  ghost predicate NeverInverted(s: Sys, steps: seq<Step>)
    requires Wf(s) && Legal(s, steps)
    decreases |steps|
  {
    NoInversion(s) && (steps == [] || NeverInverted(Next(s, steps[0]), steps[1..]))
  }

  lemma {:induction false} RunGuards(s: Sys, steps: seq<Step>)
    requires NoInversion(s) && Legal(s, steps)
    ensures NeverInverted(s, steps) <==> Fitting(s, steps)
    ensures Fitting(s, steps) ==> NoInversion(Run(s, steps))
    decreases |steps|
  {
    if steps != [] {
      NextGuards(s, steps[0]);
      if Fits(s, steps[0]) { RunGuards(Next(s, steps[0]), steps[1..]); }
    }
  }

  ghost predicate Uncontrolled(steps: seq<Step>) {
    forall i :: 0 <= i < |steps| ==> !steps[i].DoControl?
  }

  lemma {:induction false} UncontrolledFits(s: Sys, steps: seq<Step>)
    requires Wf(s) && Legal(s, steps) && Uncontrolled(steps)
    ensures Fitting(s, steps)
    decreases |steps|
  {
    if steps != [] { UncontrolledFits(Next(s, steps[0]), steps[1..]); }
  }

  // t waits for a mutex that o owns.
  ghost predicate WaitsFor(s: Sys, t: nat, o: nat) {
    && t < |s.ts| && o < |s.ts| && Chained(s, t)
    && s.ts[t].pending.value < |s.ms| && s.ms[s.ts[t].pending.value].owner == Some(o)
  }

  ghost predicate WaitChain(s: Sys, path: seq<nat>) {
    && path != []
    && (forall i :: 0 <= i < |path| ==> path[i] < |s.ts|)
    && (forall i :: 0 <= i < |path| - 1 ==> WaitsFor(s, path[i], path[i + 1]))
  }

  lemma {:induction false} ChainNotInverted(s: Sys, path: seq<nat>)
    requires NoInversion(s) && WaitChain(s, path)
    ensures s.ts[path[|path| - 1]].curr <= s.ts[path[0]].curr
    decreases |path|
  {
    if |path| > 1 {
      var t, o := path[0], path[1];
      assert WaitsFor(s, t, o) && ThreadOk(s, t);
      var m := s.ts[t].pending.value;
      assert MutexOk(s, m) && Guarded(s, m);
      forall i | 0 <= i < |path[1..]| - 1 ensures WaitsFor(s, path[1..][i], path[1..][i + 1]) {
        assert WaitsFor(s, path[i + 1], path[i + 2]);
      }
      ChainNotInverted(s, path[1..]);
    }
  }

  // The theorem: from boot, after any calls of the mutex code, timeouts, resumes and
  // sleeps, and priorities written from outside that fit, along any wait chain.
  lemma NoPriorityInversion(prios: seq<nat>, mutexes: nat, steps: seq<Step>, path: seq<nat>)
    requires forall i :: 0 <= i < |prios| ==> prios[i] < PRIORITY_MAX
    requires Legal(Boot(prios, mutexes), steps) && Fitting(Boot(prios, mutexes), steps)
    requires WaitChain(Run(Boot(prios, mutexes), steps), path)
    ensures var s := Run(Boot(prios, mutexes), steps);
      s.ts[path[|path| - 1]].curr <= s.ts[path[0]].curr
  {
    RunGuards(Boot(prios, mutexes), steps);
    ChainNotInverted(Run(Boot(prios, mutexes), steps), path);
  }

  // --- exact inheritance, and exactly when it is lost -----------------------

  // A waiter of m was unlinked by its timer or a resume and has not run yet.
  ghost predicate WokenOn(s: Sys, t: nat, m: nat) {
    Woken(s, t) && s.ts[t].pending == Some(m)
  }

  ghost predicate Awaits(s: Sys, m: nat) {
    exists t :: WokenOn(s, t, m)
  }

  // The mutexes whose advertised priority such a waiter has yet to repair.
  ghost function Awaiting(s: Sys): set<nat> {
    set m: nat | m < |s.ms| && Awaits(s, m)
  }

  // Every thread runs at exactly what it is owed, every wait list is in order,
  // and every mutex advertises its head waiter or awaits a repair.
  ghost predicate Accounted(s: Sys) {
    NoInversion(s) && ExactOutside(s, Awaiting(s))
  }

  // The guards of the two branches that lose exactness, and of a write from outside.
  ghost predicate Passes(s: Sys, step: Step)
    requires Wf(s) && Enabled(s, step)
  {
    match step
    case DoGiveUp(t) => Repairs(s, t)
    case DoRelease(t, m) => Releasable(s, t, m) ==> !CeilingMissed(s, t, m)
    case DoControl(t, p, reset) =>
      assert ThreadOk(s, t);
      Bears(s, t, p) && Due(s, t, p, reset, Awaiting(s))
    case _ => true
  }

  ghost predicate WaitsOn(s: Sys, r: Sys, t: nat) {
    |r.ms| == |s.ms| && Woken(s, t) && Woken(r, t) && r.ts[t].pending == s.ts[t].pending
  }

  lemma ReleaseWakesNoMore(s: Sys, u: nat, m: nat, t: nat)
    requires Wf(s) && Running(s, u) && m < |s.ms| && Woken(s, t)
    ensures WaitsOn(s, Release(s, u, m), t)
  {
    hide DroppedPrio;
    assert MutexOk(s, m);
    assert s.ms[m].waiters != [] ==> s.ms[m].waiters[0] in s.ms[m].waiters;
  }

  lemma GiveUpOfAnother(s: Sys, u: nat, t: nat)
    requires Wf(s) && Woken(s, u) && Woken(s, t) && t != u
    ensures WaitsOn(s, GiveUp(s, u), t)
  {
    hide Propagate, Owed, Inherited, UpdatePriority;
    assert ThreadOk(s, u) && MutexOk(s, s.ts[u].pending.value);
  }

  lemma StillWoken(s: Sys, step: Step, t: nat)
    requires Wf(s) && Enabled(s, step) && Woken(s, t) && step != DoGiveUp(t)
    ensures WaitsOn(s, Next(s, step), t)
  {
    hide Release, GiveUp, UpdatePriority, Owed;
    assert ThreadOk(s, t);
    match step
    case DoTake(u, m, wait) => assert MutexOk(s, m);
    case DoRelease(u, m) => ReleaseWakesNoMore(s, u, m, t);
    case DoWake(u, e) =>
    case DoGiveUp(u) => GiveUpOfAnother(s, u, t);
    case DoCeiling(m, p) => assert MutexOk(s, m);
    case DoSleep(u) =>
    case DoResume(u) =>
    case DoControl(u, p, reset) =>
  }

  // --- a woken waiter that stands by ------------------------------------------

  // The walk along the owners writes to owners only.
  lemma {:induction false} PropagateSpares(s: Sys, t: nat, untouched: set<nat>, u: nat)
    requires Wf(s) && Descending(s, t, untouched) && u < |s.ts| && s.ts[u].taken == []
    ensures Propagate(s, t, untouched).ts[u] == s.ts[u]
    decreases untouched, SumCurr(s.ts)
  {
    hide Inherited;
    if Chained(s, t) {
      var o, s2 := ChainOwner(s, t), ChainNext(s, t);
      assert ThreadOk(s, t) && MutexOk(s, s.ts[t].pending.value);
      assert o != u && s2.ts[u] == s.ts[u];
      ChainDescends(s, t, untouched);
      if s2.ts[o].curr != s.ts[o].curr { PropagateSpares(s2, o, untouched - {o}, u); }
    }
  }

  lemma UpdateSpares(s: Sys, t: nat, p: nat, u: nat)
    requires Wf(s) && t < |s.ts| && p < PRIORITY_MAX && u < |s.ts| && s.ts[u].taken == [] && u != t
    ensures UpdatePriority(s, t, p).ts[u] == s.ts[u]
  {
    SetCurrWf(s, t, p);
    PropagateSpares(SetCurr(s, t, p), t, Tids(|s.ts|) - {t}, u);
  }

  lemma RecheckSpares(s: Sys, m: nat, u: nat)
    requires Wf(s) && m < |s.ms| && MutexOk(s, m) && s.ms[m].owner.Some? && u < |s.ts| && s.ts[u].taken == []
    ensures Rechecked(s, s.ms[m].owner.value).ts[u] == s.ts[u]
  {
    hide UpdatePriority;
    var o := s.ms[m].owner.value;
    assert ThreadOk(s, o);
    if Owed(s, o) != s.ts[o].curr { UpdateSpares(s, o, Owed(s, o), u); }
  }

  lemma BlockedSpares(s: Sys, u: nat, m: nat, t: nat)
    requires Wf(s) && Running(s, u) && m < |s.ms| && s.ms[m].owner.Some? && s.ms[m].owner != Some(u)
    requires t < |s.ts| && s.ts[t].taken == [] && t != u
    ensures t < |Blocked(s, u, m).ts| && Blocked(s, u, m).ts[t] == s.ts[t]
  {
    hide UpdatePriority;
    ParkedWf(s, u, m);
    assert ThreadOk(s, u);
    var s1, p := Parked(s, u, m), s.ts[u].curr;
    if p < s.ms[m].prio {
      AdvertisedWf(s1, m, p);
      var o := s.ms[m].owner.value;
      if p < s1.ts[o].curr { UpdateSpares(Advertised(s1, m, p), o, p, t); }
    }
  }

  lemma TakeSpares(s: Sys, u: nat, m: nat, wait: bool, t: nat)
    requires Wf(s) && Running(s, u) && m < |s.ms| && t < |s.ts| && s.ts[t].taken == [] && t != u
    ensures t < |Take(s, u, m, wait).ts| && Take(s, u, m, wait).ts[t] == s.ts[t]
  {
    hide Blocked;
    SetErrorWf(s, u, EOK);
    var s0 := SetError(s, u, EOK);
    if wait && s.ms[m].owner.Some? && s.ms[m].owner != Some(u) {
      BlockedSpares(s0, u, m, t);
      assert Take(s, u, m, wait) == Blocked(s0, u, m);
    }
  }

  // A woken waiter that holds no mutex is left as it is by everything but its own
  // next step and rt_thread_control: nobody looks at it or passes a priority to it,
  // however long it takes to run, so rt_thread_suspend may well have been called on it.
  lemma WokenStandsBy(s: Sys, step: Step, t: nat)
    requires Wf(s) && Enabled(s, step) && Woken(s, t) && s.ts[t].taken == []
    requires step != DoGiveUp(t) && (step.DoControl? ==> step.t != t)
    ensures t < |Next(s, step).ts| && Next(s, step).ts[t] == s.ts[t]
  {
    hide UpdatePriority, Rechecked, Blocked, DroppedPrio, Owed;
    match step
    case DoTake(u, m, wait) => TakeSpares(s, u, m, wait, t);
    case DoRelease(u, m) =>
      assert MutexOk(s, m);
      assert s.ms[m].waiters != [] ==> s.ms[m].waiters[0] in s.ms[m].waiters;
    case DoWake(u, e) => WakeWf(s, u, e);
    case DoGiveUp(u) => GiveUpSpares(s, u, t);
    case DoCeiling(m, p) =>
      assert MutexOk(s, m);
      if p < PRIORITY_MAX && s.ms[m].owner.Some? {
        CeilingWf(s, m, p);
        RecheckSpares(s.(ms := s.ms[m := s.ms[m].(ceiling := p)]), m, t);
      }
    case DoSleep(u) =>
    case DoResume(u) =>
    case DoControl(u, p, reset) =>
  }

  lemma GiveUpSpares(s: Sys, u: nat, t: nat)
    requires Wf(s) && Woken(s, u) && t < |s.ts| && s.ts[t].taken == [] && t != u
    ensures t < |GiveUp(s, u).ts| && GiveUp(s, u).ts[t] == s.ts[t]
  {
    hide UpdatePriority, Rechecked, HeadPrio;
    assert ThreadOk(s, u);
    var m := s.ts[u].pending.value;
    var s1 := Refreshed(s, m);
    assert MutexOk(s, m) && MutexOk(s1, m);
    if s1.ms[m].owner.Some? { RecheckSpares(s1, m, t); }
  }

  lemma StillAwaiting(s: Sys, step: Step)
    requires Wf(s) && Enabled(s, step)
    ensures Awaiting(s) - (if step.DoGiveUp? then {s.ts[step.t].pending.value} else {}) <= Awaiting(Next(s, step))
  {
    forall m | m in Awaiting(s) && !(step.DoGiveUp? && m == s.ts[step.t].pending.value)
      ensures m in Awaiting(Next(s, step))
    {
      var t :| WokenOn(s, t, m);
      StillWoken(s, step, t);
      assert WokenOn(Next(s, step), t, m);
    }
  }

  lemma WakeAwaits(s: Sys, t: nat, e: Err)
    requires Wf(s) && Chained(s, t)
    ensures Awaiting(s) + {s.ts[t].pending.value} <= Awaiting(Wake(s, t, e))
  {
    assert ThreadOk(s, t);
    StillAwaiting(s, DoWake(t, e));
    assert WokenOn(Wake(s, t, e), t, s.ts[t].pending.value);
  }

  ghost predicate AllPaid(s: Sys) {
    forall t :: 0 <= t < |s.ts| ==> Paid(s, t)
  }

  lemma ReleaseAccounts(s: Sys, t: nat, m: nat)
    requires Accounted(s) && Running(s, t) && m < |s.ms|
    ensures var r := Release(s, t, m);
      if Passes(s, DoRelease(t, m)) then ExactOutside(r, Awaiting(s)) else !AllPaid(r)
  {
    ReleaseExact(s, t, m, Awaiting(s));
    if !Passes(s, DoRelease(t, m)) {
      HeirPaid(s, t, m, Awaiting(s));
      assert s.ms[m].waiters[0] in s.ms[m].waiters;
    }
  }

  // What a write from outside leaves awaiting a repair is what was.
  lemma ControlAwaits(s: Sys, t: nat, p: nat, reset: bool)
    requires Wf(s) && t < |s.ts| && p < PRIORITY_MAX
    ensures Awaiting(Assigned(s, t, p, reset)) == Awaiting(s)
  {
    var r := Assigned(s, t, p, reset);
    forall m: nat | m < |s.ms| ensures Awaits(r, m) <==> Awaits(s, m) {
      if Awaits(s, m) { var u :| WokenOn(s, u, m); assert WokenOn(r, u, m); }
      if Awaits(r, m) { var u :| WokenOn(r, u, m); assert WokenOn(s, u, m); }
    }
  }

  // Each step keeps the account if and only if its guard holds. If the mutex code
  // breaks it, it leaves a thread at a priority that it is not owed.
  lemma NextAccounted(s: Sys, step: Step)
    requires Accounted(s) && Enabled(s, step)
    ensures Accounted(Next(s, step)) <==> Passes(s, step)
    ensures !Passes(s, step) && !step.DoControl? ==> !AllPaid(Next(s, step))
  {
    var lax, r := Awaiting(s), Next(s, step);
    NextGuards(s, step);
    StillAwaiting(s, step);
    match step {
      case DoTake(t, m, wait) => TakeExact(s, t, m, wait, lax); ExactWider(r, lax, Awaiting(r));
      case DoRelease(t, m) =>
        ReleaseAccounts(s, t, m);
        if Passes(s, step) { ExactWider(r, lax, Awaiting(r)); }
      case DoWake(t, e) =>
        WakeExact(s, t, e, lax);
        WakeAwaits(s, t, e);
        ExactWider(r, lax + {s.ts[t].pending.value}, Awaiting(r));
      case DoGiveUp(t) =>
        assert ThreadOk(s, t) && MutexOk(s, s.ts[t].pending.value) && Guarded(s, s.ts[t].pending.value);
        GiveUpExactWhen(s, t, lax);
        if Passes(s, step) { ExactWider(r, lax - {s.ts[t].pending.value}, Awaiting(r)); }
      case DoCeiling(m, p) => CeilingExact(s, m, p, lax); ExactWider(r, lax, Awaiting(r));
      case DoSleep(t) => SleepExact(s, t, true, lax); ExactWider(r, lax, Awaiting(r));
      case DoResume(t) => SleepExact(s, t, false, lax); ExactWider(r, lax, Awaiting(r));
      case DoControl(t, p, reset) =>
        ControlAwaits(s, t, p, reset);
        AssignedExact(s, t, p, reset, lax);
    }
  }

  // Every give-up, every release and every write from outside passes its guard.
  ghost predicate Careful(s: Sys, steps: seq<Step>)
    requires Wf(s) && Legal(s, steps)
    decreases |steps|
  {
    steps == [] || (Passes(s, steps[0]) && Careful(Next(s, steps[0]), steps[1..]))
  }

  // In every state of the run every thread runs at exactly what it is owed.
  ghost predicate PaidThroughout(s: Sys, steps: seq<Step>)
    requires Wf(s) && Legal(s, steps)
    decreases |steps|
  {
    AllPaid(s) && (steps == [] || PaidThroughout(Next(s, steps[0]), steps[1..]))
  }

  ghost predicate AccountedThroughout(s: Sys, steps: seq<Step>)
    requires Wf(s) && Legal(s, steps)
    decreases |steps|
  {
    Accounted(s) && (steps == [] || AccountedThroughout(Next(s, steps[0]), steps[1..]))
  }

  // The theorem: the account is kept all along a run if and only if every step
  // passes its guard.
  lemma {:induction false} RunAccounted(s: Sys, steps: seq<Step>)
    requires Accounted(s) && Legal(s, steps)
    ensures AccountedThroughout(s, steps) <==> Careful(s, steps)
    decreases |steps|
  {
    if steps != [] {
      NextAccounted(s, steps[0]);
      if Passes(s, steps[0]) { RunAccounted(Next(s, steps[0]), steps[1..]); }
    }
  }

  // Without writes from outside: every thread runs at exactly what it is owed all
  // along a run if and only if every give-up and every release passes its guard.
  lemma {:induction false} RunPaidExactly(s: Sys, steps: seq<Step>)
    requires Accounted(s) && Legal(s, steps) && Uncontrolled(steps)
    ensures PaidThroughout(s, steps) <==> Careful(s, steps)
    decreases |steps|
  {
    if steps != [] {
      NextAccounted(s, steps[0]);
      if Passes(s, steps[0]) { RunPaidExactly(Next(s, steps[0]), steps[1..]); }
    }
  }

  lemma QuietExact(s: Sys)
    requires Accounted(s) && forall t :: !Woken(s, t)
    ensures Exact(s)
  {
    assert Awaiting(s) == {};
  }

  // ... and where such a run ends, only mutexes with a waiter that has yet to run
  // may advertise anything but their head waiter.
  lemma {:induction false} RunExact(s: Sys, steps: seq<Step>)
    requires Accounted(s) && Legal(s, steps) && Careful(s, steps)
    ensures Accounted(Run(s, steps))
    ensures (forall t :: !Woken(Run(s, steps), t)) ==> Exact(Run(s, steps))
    decreases |steps|
  {
    if steps != [] {
      NextAccounted(s, steps[0]);
      RunExact(Next(s, steps[0]), steps[1..]);
    } else if forall t :: !Woken(s, t) {
      QuietExact(s);
    }
  }

  lemma BootAccounted(prios: seq<nat>, mutexes: nat)
    requires forall i :: 0 <= i < |prios| ==> prios[i] < PRIORITY_MAX
    ensures Accounted(Boot(prios, mutexes))
  {
    ExactWider(Boot(prios, mutexes), {}, Awaiting(Boot(prios, mutexes)));
  }

  // So a thread that holds no mutex is back at its initial priority, in whatever
  // order it let go of them.
  lemma BackToInitial(prios: seq<nat>, mutexes: nat, steps: seq<Step>, t: nat)
    requires forall i :: 0 <= i < |prios| ==> prios[i] < PRIORITY_MAX
    requires Legal(Boot(prios, mutexes), steps)
    requires Careful(Boot(prios, mutexes), steps)
    requires var s := Run(Boot(prios, mutexes), steps); t < |s.ts| && s.ts[t].taken == []
    ensures var s := Run(Boot(prios, mutexes), steps); s.ts[t].curr == s.ts[t].init
  {
    BootAccounted(prios, mutexes);
    RunExact(Boot(prios, mutexes), steps);
    assert Paid(Run(Boot(prios, mutexes), steps), t);
  }

  // A waiter that runs as soon as it is unlinked passes its guard, unless another
  // one has yet to repair the same mutex.
  lemma PromptRepairs(s: Sys, t: nat, e: Err)
    requires Accounted(s) && Chained(s, t) && s.ts[t].pending.value !in Awaiting(s)
    ensures Repairs(Wake(s, t, e), t)
  {
    assert ThreadOk(s, t);
    WakeExact(s, t, e, Awaiting(s));
    WakeGuards(s, t, e);
    var r, m := Wake(s, t, e), s.ts[t].pending.value;
    assert MutexOk(r, m) && Guarded(r, m);
    GiveUpExactWhen(r, t, Awaiting(s) + {m});
    PromptTimeoutExact(s, t, e, Awaiting(s));
  }

  // A recorded trace is a run.
  ghost predicate Trace(states: seq<Sys>, steps: seq<Step>) {
    && |states| == |steps| + 1
    && (forall i :: 0 <= i < |states| ==> Wf(states[i]))
    && (forall i :: 0 <= i < |steps| ==> Enabled(states[i], steps[i]) && Next(states[i], steps[i]) == states[i + 1])
  }

  lemma {:induction false} TraceRuns(states: seq<Sys>, steps: seq<Step>)
    requires Trace(states, steps)
    ensures Legal(states[0], steps) && Run(states[0], steps) == states[|steps|]
    decreases |steps|
  {
    if steps != [] {
      TraceRuns(states[1..], steps[1..]);
    }
  }

  // A give-up that does not pass: thread 1 times out on mutex 0 but, before it
  // runs, is raised by thread 2 through mutex 1. The comparison in GiveUp then
  // misses, and thread 0 keeps the priority it inherited from thread 1 even
  // after it has released everything.
  ghost function LateSteps(): seq<Step> {
    [DoTake(0, 0, true), DoTake(1, 1, true), DoTake(1, 0, true), DoWake(1, ETIMEOUT),
     DoTake(2, 1, true), DoGiveUp(1), DoRelease(0, 0)]
  }

  ghost function LateState(i: nat): Sys {
    var a := Thread(20, if i < 3 then 20 else 10, false, None, if 1 <= i < 7 then [0] else [], EOK);
    var b := Thread(10, if i < 5 then 10 else 5, i == 3, if 3 <= i < 6 then Some(0) else None,
                    if i < 2 then [] else [1], if i < 4 then EOK else ETIMEOUT);
    var c := Thread(5, 5, i >= 5, if i < 5 then None else Some(1), [], EOK);
    var m0 := if 1 <= i < 7 then Mutex(Some(0), if 3 <= i < 6 then 10 else 255, 1, 255, if i == 3 then [1] else [])
              else Mutex(None, 255, 0, 255, []);
    var m1 := if i < 2 then Mutex(None, 255, 0, 255, [])
              else Mutex(Some(1), if i < 5 then 255 else 5, 1, 255, if i < 5 then [] else [2]);
    Sys([a, b, c], [m0, m1])
  }

  lemma LateWf(i: nat)
    requires i <= 7
    ensures Wf(LateState(i))
  {
    var s := LateState(i);
    forall t | 0 <= t < |s.ts| ensures ThreadOk(s, t) {}
    forall m | 0 <= m < |s.ms| ensures MutexOk(s, m) {}
  }

  lemma LateTakes(i: nat)
    requires i < 5 && i != 3
    ensures Wf(LateState(i)) && Enabled(LateState(i), LateSteps()[i])
    ensures Next(LateState(i), LateSteps()[i]) == LateState(i + 1)
  {
    LateWf(i);
    assert forall k: nat :: [k] + [] == [k];
  }

  lemma LateOthers(i: nat)
    requires i == 3 || 5 <= i < 7
    ensures Wf(LateState(i)) && Enabled(LateState(i), LateSteps()[i])
    ensures Next(LateState(i), LateSteps()[i]) == LateState(i + 1)
  {
    LateWf(i);
  }

  lemma LateTrace() returns (states: seq<Sys>)
    ensures Trace(states, LateSteps()) && states[0] == LateState(0) && states[7] == LateState(7)
  {
    states := seq(8, i requires 0 <= i < 8 => LateState(i));
    forall i | 0 <= i < 8 ensures Wf(states[i]) { LateWf(i); }
    forall i | 0 <= i < 7
      ensures Enabled(states[i], LateSteps()[i]) && Next(states[i], LateSteps()[i]) == states[i + 1]
    {
      if i == 3 || 5 <= i { LateOthers(i); } else { LateTakes(i); }
    }
  }

  lemma LateBoot()
    ensures Boot([20, 10, 5], 2) == LateState(0)
  {
    assert Boot([20, 10, 5], 2).ts == LateState(0).ts;
    assert Boot([20, 10, 5], 2).ms == LateState(0).ms;
  }

  lemma LateTimeoutKeepsBoost()
    ensures Legal(Boot([20, 10, 5], 2), LateSteps())
    ensures var s := Run(Boot([20, 10, 5], 2), LateSteps());
      |s.ts| == 3 && s.ts[0].taken == [] && s.ts[0].init == 20 && s.ts[0].curr == 10
  {
    var states := LateTrace();
    TraceRuns(states, LateSteps());
    LateBoot();
  }

  // Taking and releasing a free mutex without a ceiling does not put it right:
  // the priority is what it was.
  lemma UncontendedRound(s: Sys, t: nat, m: nat, wait: bool)
    requires Wf(s) && Running(s, t) && m < |s.ms| && s.ms[m].owner.None? && s.ms[m].ceiling == NO_PRIORITY
    ensures var r := Take(s, t, m, wait); Running(r, t) && m < |r.ms| && Release(r, t, m) == SetError(s, t, EOK)
  {
    assert ThreadOk(s, t) && MutexOk(s, m);
    var taken := s.ts[t].taken;
    assert Remove([m] + taken, m) == taken by { assert ([m] + taken)[1..] == taken; }
    var r := Take(s, t, m, wait);
    assert ThreadOk(r, t) && r.ts[t].curr < PRIORITY_MAX;
    assert Release(r, t, m).ts == SetError(s, t, EOK).ts;
    assert Release(r, t, m).ms == s.ms;
  }

  // A release that does not pass: thread 1 waits for mutex 0 when its ceiling is
  // set to 5. Its owner is raised to the ceiling, its heir is not.
  ghost function CeilingSteps(): seq<Step> {
    [DoTake(0, 0, true), DoTake(1, 0, true), DoCeiling(0, 5), DoRelease(0, 0)]
  }

  ghost function CeilingState(i: nat): Sys {
    var a := Thread(20, if i == 2 then 10 else if i == 3 then 5 else 20, false, None,
                    if 1 <= i < 4 then [0] else [], EOK);
    var b := Thread(10, 10, 2 <= i < 4, if 2 <= i < 4 then Some(0) else None, if i < 4 then [] else [0], EOK);
    var m := Mutex(if i == 0 then None else if i < 4 then Some(0) else Some(1), if 2 <= i < 4 then 10 else 255,
                   if i == 0 then 0 else 1, if i < 3 then 255 else 5, if 2 <= i < 4 then [1] else []);
    Sys([a, b], [m])
  }

  lemma CeilingStateWf(i: nat)
    requires i <= 4
    ensures Wf(CeilingState(i))
  {
    var s := CeilingState(i);
    forall t | 0 <= t < |s.ts| ensures ThreadOk(s, t) {}
    forall m | 0 <= m < |s.ms| ensures MutexOk(s, m) {}
  }

  lemma CeilingTakes(i: nat)
    requires i < 2
    ensures Wf(CeilingState(i)) && Enabled(CeilingState(i), CeilingSteps()[i])
    ensures Next(CeilingState(i), CeilingSteps()[i]) == CeilingState(i + 1)
  {
    CeilingStateWf(i);
    assert forall k: nat :: [k] + [] == [k];
  }

  lemma CeilingOthers(i: nat)
    requires 2 <= i < 4
    ensures Wf(CeilingState(i)) && Enabled(CeilingState(i), CeilingSteps()[i])
    ensures Next(CeilingState(i), CeilingSteps()[i]) == CeilingState(i + 1)
  {
    CeilingStateWf(i);
    assert forall k: nat :: [k] + [] == [k];
  }

  lemma CeilingStep(i: nat)
    requires i < 4
    ensures Wf(CeilingState(i)) && Enabled(CeilingState(i), CeilingSteps()[i])
    ensures Next(CeilingState(i), CeilingSteps()[i]) == CeilingState(i + 1)
  {
    hide CeilingState, CeilingSteps, Next, Enabled, Wf;
    if i < 2 { CeilingTakes(i); } else { CeilingOthers(i); }
  }

  lemma CeilingBoot()
    ensures Boot([20, 10], 1) == CeilingState(0)
  {
    assert Boot([20, 10], 1).ts == CeilingState(0).ts;
    assert Boot([20, 10], 1).ms == CeilingState(0).ms;
  }

  lemma CeilingRun()
    ensures Legal(Boot([20, 10], 1), CeilingSteps()[..3])
    ensures Run(Boot([20, 10], 1), CeilingSteps()[..3]) == CeilingState(3)
  {
    var states := seq(4, i requires 0 <= i < 4 => CeilingState(i));
    forall i | 0 <= i < 4 ensures Wf(states[i]) { CeilingStateWf(i); }
    forall i | 0 <= i < 3
      ensures Enabled(states[i], CeilingSteps()[i]) && Next(states[i], CeilingSteps()[i]) == states[i + 1]
    {
      CeilingStep(i);
    }
    TraceRuns(states, CeilingSteps()[..3]);
    CeilingBoot();
  }

  ghost predicate HeirBelowCeiling(s: Sys) {
    && |s.ts| == 2 && |s.ms| == 1
    && s.ms[0].owner == Some(1) && s.ms[0].ceiling == 5 && s.ts[1].curr == 10
  }

  lemma CeilingStateExact()
    ensures Exact(CeilingState(3)) && Releasable(CeilingState(3), 0, 0) && CeilingMissed(CeilingState(3), 0, 0)
    ensures HeirBelowCeiling(CeilingState(4))
  {
    var s := CeilingState(3);
    CeilingStateWf(3);
    forall t | 0 <= t < |s.ts| ensures Paid(s, t) {
      assert ThreadOk(s, t) && MutexPrio(s.ms[0]) == 5;
      assert t == 0 ==> 0 in s.ts[t].taken;
      InheritedIs(s.ms, s.ts[t].taken, s.ts[t].init, s.ts[t].curr);
    }
    forall m | 0 <= m < |s.ms| ensures MutexOk(s, m) && FreshUnless(s, m, {}) { assert MutexOk(s, m); }
  }

  // Reachable from boot: exact before the release, and afterwards the new owner
  // runs at 10 under a ceiling of 5.
  lemma CeilingMissedReachable()
    ensures Legal(Boot([20, 10], 1), CeilingSteps()[..3])
    ensures var s := Run(Boot([20, 10], 1), CeilingSteps()[..3]);
      && Exact(s) && Releasable(s, 0, 0) && CeilingMissed(s, 0, 0)
      && !Exact(Release(s, 0, 0)) && HeirBelowCeiling(Release(s, 0, 0))
  {
    hide CeilingState;
    CeilingRun();
    CeilingStateExact();
    CeilingStep(3);
    ReleaseExact(CeilingState(3), 0, 0, {});
  }

  // A write from outside that does not fit: thread 0 owns mutex 0, for which thread
  // 1 waits at 20, and is given 25.
  ghost function ControlSteps(): seq<Step> {
    [DoTake(0, 0, true), DoTake(1, 0, true), DoControl(0, 25, false)]
  }

  ghost function ControlState(i: nat): Sys {
    var a := Thread(10, if i < 3 then 10 else 25, false, None, if i == 0 then [] else [0], EOK);
    var b := Thread(20, 20, 2 <= i, if 2 <= i then Some(0) else None, [], EOK);
    var m := Mutex(if i == 0 then None else Some(0), if 2 <= i then 20 else 255, if i == 0 then 0 else 1, 255,
                   if 2 <= i then [1] else []);
    Sys([a, b], [m])
  }

  lemma ControlStateWf(i: nat)
    requires i <= 3
    ensures Wf(ControlState(i))
  {
    var s := ControlState(i);
    forall t | 0 <= t < |s.ts| ensures ThreadOk(s, t) {}
    forall m | 0 <= m < |s.ms| ensures MutexOk(s, m) {}
  }

  lemma ControlStep(i: nat)
    requires i < 3
    ensures Wf(ControlState(i)) && Enabled(ControlState(i), ControlSteps()[i])
    ensures Next(ControlState(i), ControlSteps()[i]) == ControlState(i + 1)
  {
    ControlStateWf(i);
    assert forall k: nat :: [k] + [] == [k];
  }

  lemma ControlBoot()
    ensures Boot([10, 20], 1) == ControlState(0)
  {
    assert Boot([10, 20], 1).ts == ControlState(0).ts;
    assert Boot([10, 20], 1).ms == ControlState(0).ms;
  }

  lemma ControlRun()
    ensures Legal(Boot([10, 20], 1), ControlSteps())
    ensures Run(Boot([10, 20], 1), ControlSteps()) == ControlState(3)
  {
    var states := seq(4, i requires 0 <= i < 4 => ControlState(i));
    forall i | 0 <= i < 4 ensures Wf(states[i]) { ControlStateWf(i); }
    forall i | 0 <= i < 3
      ensures Enabled(states[i], ControlSteps()[i]) && Next(states[i], ControlSteps()[i]) == states[i + 1]
    {
      ControlStep(i);
    }
    TraceRuns(states, ControlSteps());
    ControlBoot();
  }

  // Afterwards the owner runs at 25 while thread 1 waits for it at 20.
  lemma ControlInverts()
    ensures Legal(Boot([10, 20], 1), ControlSteps())
    ensures var s := Run(Boot([10, 20], 1), ControlSteps());
      WaitChain(s, [1, 0]) && s.ts[1].curr == 20 && s.ts[0].curr == 25 && !NoInversion(s)
  {
    ControlRun();
    var s := ControlState(3);
    assert WaitsFor(s, 1, 0);
    if NoInversion(s) { ChainNotInverted(s, [1, 0]); }
  }
}
