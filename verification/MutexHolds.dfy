// What every call of the mutex code does to ownership, hold counts and wait lists:
// the outcomes of each call, and who owns a mutex for how long.

module MutexHolds {
  import opened Common
  import opened MutexModel
  import opened MutexSteps
  import opened MutexRuns

  // --- the outcomes of take -----------------------------------------------------

  // The owner takes it once more, unless it has done so 255 times.
  lemma TakeRecursive(s: Sys, t: nat, m: nat, wait: bool)
    requires Wf(s) && Running(s, t) && m < |s.ms| && s.ms[m].owner == Some(t)
    ensures Take(s, t, m, wait) ==
      if s.ms[m].hold < HOLD_MAX
      then Sys(SetError(s, t, EOK).ts, s.ms[m := s.ms[m].(hold := s.ms[m].hold + 1)])
      else SetError(s, t, EOK)
  {}

  // A take of a mutex already owned, and a release, are as if nothing had been called.
  lemma RecursiveRound(s: Sys, t: nat, m: nat, wait: bool)
    requires Wf(s) && Running(s, t) && m < |s.ms| && s.ms[m].owner == Some(t) && s.ms[m].hold < HOLD_MAX
    ensures Running(Take(s, t, m, wait), t) && m < |Take(s, t, m, wait).ms|
    ensures Release(Take(s, t, m, wait), t, m) == SetError(s, t, EOK)
  {
    assert MutexOk(s, m);
    var r := Take(s, t, m, wait);
    assert r.ms[m].hold > 1 && r.ms[m].owner == Some(t);
    assert Release(r, t, m).ms == s.ms;
  }

  // An unowned mutex is the caller's, once; the caller runs at the ceiling if that is
  // better than what it runs at.
  lemma TakeUnowned(s: Sys, t: nat, m: nat, wait: bool)
    requires Wf(s) && Running(s, t) && m < |s.ms| && s.ms[m].owner.None?
    ensures var r, a, b := Take(s, t, m, wait), s.ms[m], s.ts[t];
      && r.ms == s.ms[m := a.(owner := Some(t), hold := 1)]
      && r.ts == s.ts[t := b.(taken := [m] + b.taken, curr := Min(b.curr, a.ceiling), error := EOK)]
  {
    assert MutexOk(s, m) && ThreadOk(s, t);
  }

  // A mutex that another thread owns: the caller is turned away, or it sleeps in the
  // mutex's list, among those who slept there before.
  lemma TakeContended(s: Sys, t: nat, m: nat, wait: bool)
    requires Wf(s) && Running(s, t) && m < |s.ms| && s.ms[m].owner.Some? && s.ms[m].owner != Some(t)
    ensures var r := Take(s, t, m, wait);
      if !wait then r == SetError(s, t, ETIMEOUT)
      else
        && |r.ts| == |s.ts| && |r.ms| == |s.ms|
        && r.ts[t] == s.ts[t].(suspended := true, pending := Some(m), error := EOK, curr := r.ts[t].curr)
        && |r.ms[m].waiters| == |s.ms[m].waiters| + 1
        && (forall u :: u in r.ms[m].waiters <==> u in s.ms[m].waiters || u == t)
        && (forall u :: 0 <= u < |s.ts| && u != t ==> r.ts[u] == s.ts[u].(curr := r.ts[u].curr))
        && (forall k :: 0 <= k < |s.ms| ==> Ownership(s.ms[k], r.ms[k]) && (k != m ==> SameMutex(s.ms[k], r.ms[k])))
  {
    hide UpdatePriority;
    SetErrorWf(s, t, EOK);
    var s0 := SetError(s, t, EOK);
    if wait {
      ParkedWf(s0, t, m);
      EnqueuedNoDup(s0.ts, s0.ms[m].waiters, t);
      var s1, p := Parked(s0, t, m), s.ts[t].curr;
      assert ThreadOk(s, t);
      BlockedShape(s0, t, m);
      var r := Blocked(s0, t, m);
      forall k | 0 <= k < |s.ms| ensures Ownership(s.ms[k], r.ms[k]) && (k != m ==> SameMutex(s.ms[k], r.ms[k])) {
        assert SameMutex(s1.ms[k], r.ms[k]);
      }
      assert SameMutex(s1.ms[m], r.ms[m]);
    }
  }

  ghost predicate Ownership(a: Mutex, b: Mutex) {
    b.owner == a.owner && b.hold == a.hold && b.ceiling == a.ceiling
  }

  lemma BlockedShape(s: Sys, t: nat, m: nat)
    requires Wf(s) && Running(s, t) && m < |s.ms| && s.ms[m].owner.Some? && s.ms[m].owner != Some(t)
    ensures Below(s.ms[m].waiters, |s.ts|) && SameShape(Parked(s, t, m), Blocked(s, t, m))
  {
    ParkedWf(s, t, m);
    assert ThreadOk(s, t);
    var s1, p := Parked(s, t, m), s.ts[t].curr;
    if p < s.ms[m].prio {
      AdvertisedWf(s1, m, p);
      var s2 := Advertised(s1, m, p);
      assert SameShape(s1, s2) by {
        forall k | 0 <= k < |s1.ms| ensures SameMutex(s1.ms[k], s2.ms[k]) {}
      }
      if p < s2.ts[s.ms[m].owner.value].curr {
        SameShapeTrans(s1, s2, UpdatePriority(s2, s.ms[m].owner.value, p));
      }
    }
  }

  // --- the outcomes of release -------------------------------------------------------

  // Refused, one level, free, or handed to the first waiter.
  lemma ReleaseOutcome(s: Sys, t: nat, m: nat)
    requires Wf(s) && Running(s, t) && m < |s.ms|
    ensures var r, a := Release(s, t, m), s.ms[m];
      if a.owner != Some(t) then r == SetError(s, t, ERROR)
      else if a.hold > 1 then r.ts == s.ts && r.ms == s.ms[m := a.(hold := a.hold - 1)]
      else
        && |r.ts| == |s.ts|
        && r.ts[t] == s.ts[t].(taken := Remove(s.ts[t].taken, m), curr := r.ts[t].curr)
        && (forall u :: 0 <= u < |s.ts| && u != t && !(u in a.waiters && u == a.waiters[0]) ==> r.ts[u] == s.ts[u])
        && if a.waiters == [] then r.ms == s.ms[m := a.(owner := None, hold := 0, prio := NO_PRIORITY)]
           else
             var w := a.waiters[0];
             && w < |s.ts| && w != t && |r.ms| == |s.ms| && Below(a.waiters, |s.ts|)
             && r.ts[w] == s.ts[w].(suspended := false, pending := None, taken := [m] + s.ts[w].taken)
             && r.ms == s.ms[m := a.(owner := Some(w), hold := 1, waiters := a.waiters[1..], prio := r.ms[m].prio)]
             && r.ms[m].prio == (if |a.waiters| > 1 then s.ts[a.waiters[1]].curr else NO_PRIORITY)
  {
    hide DroppedPrio;
    assert MutexOk(s, m) && ThreadOk(s, t);
    if s.ms[m].waiters != [] {
      assert s.ms[m].waiters[0] in s.ms[m].waiters;
      if |s.ms[m].waiters| > 1 {
        assert s.ms[m].waiters[1] in s.ms[m].waiters;
        assert s.ms[m].waiters[1] != s.ms[m].waiters[0];
      }
    }
  }

  // --- the other calls ------------------------------------------------------------------

  lemma WakeOutcome(s: Sys, t: nat, e: Err)
    requires Wf(s) && Chained(s, t)
    ensures var r, m := Wake(s, t, e), s.ts[t].pending.value;
      && m < |s.ms| && |r.ms| == |s.ms|
      && r.ts == s.ts[t := s.ts[t].(suspended := false, error := if e == EOK then s.ts[t].error else e)]
      && r.ms == s.ms[m := s.ms[m].(waiters := r.ms[m].waiters)]
      && t !in r.ms[m].waiters && (forall u :: u in s.ms[m].waiters && u != t ==> u in r.ms[m].waiters)
  {
    assert ThreadOk(s, t) && MutexOk(s, s.ts[t].pending.value);
    RemoveNoDup(s.ms[s.ts[t].pending.value].waiters, t);
  }

  // A waiter that gives up runs on without the mutex; who owns what has not changed.
  lemma GiveUpOutcome(s: Sys, t: nat)
    requires Wf(s) && Woken(s, t)
    ensures var r := GiveUp(s, t);
      && |r.ts| == |s.ts| && |r.ms| == |s.ms| && Running(r, t)
      && r.ts[t] == s.ts[t].(pending := None, curr := r.ts[t].curr)
      && (forall u :: 0 <= u < |s.ts| && u != t ==> r.ts[u] == s.ts[u].(curr := r.ts[u].curr))
      && (forall k :: 0 <= k < |s.ms| ==> SameMutex(s.ms[k], r.ms[k]))
  {
    hide UpdatePriority, Rechecked;
    assert ThreadOk(s, t);
    var m := s.ts[t].pending.value;
    assert MutexOk(s, m);
    var s1 := Refreshed(s, m);
    assert SameShape(s, s1) by {
      forall k | 0 <= k < |s.ms| ensures SameMutex(s.ms[k], s1.ms[k]) {}
    }
    var o := s.ms[m].owner;
    if o.Some? && s.ts[o.value].curr == s.ts[t].curr { SameShapeTrans(s, s1, Rechecked(s1, o.value)); }
  }

  lemma CeilingOutcome(s: Sys, m: nat, p: nat)
    requires Wf(s) && m < |s.ms|
    ensures var r := SetCeiling(s, m, p);
      if p >= PRIORITY_MAX then r == s
      else SameShape(s.(ms := s.ms[m := s.ms[m].(ceiling := p)]), r)
  {
    hide UpdatePriority, Rechecked;
    if p < PRIORITY_MAX {
      CeilingWf(s, m, p);
      assert MutexOk(s, m);
      var s1 := s.(ms := s.ms[m := s.ms[m].(ceiling := p)]);
      assert SameShape(s1, s1) by { forall k | 0 <= k < |s1.ms| ensures SameMutex(s1.ms[k], s1.ms[k]) {} }
    }
  }

  // A thread that falls asleep on anything else, or wakes up from it, cannot call, or
  // can; nothing else changes.
  lemma SleepOutcome(s: Sys, t: nat, asleep: bool)
    requires Wf(s) && t < |s.ts| && s.ts[t].pending.None?
    ensures var r := Sleep(s, t, asleep);
      && r.ms == s.ms && |r.ts| == |s.ts| && (Running(r, t) <==> !asleep) && !Woken(r, t) && !Chained(r, t)
      && forall u :: 0 <= u < |s.ts| ==> r.ts[u] == if u == t then s.ts[u].(suspended := asleep) else s.ts[u]
  {}

  // --- how long a mutex is owned ------------------------------------------------------------

  // The hold count of a mutex that t owns, after a step.
  function Level(h: nat, step: Step, t: nat, m: nat): nat {
    match step
    case DoTake(u, k, _) => if u == t && k == m && h < HOLD_MAX then h + 1 else h
    case DoRelease(u, k) => if u == t && k == m && h > 0 then h - 1 else h
    case _ => h
  }

  // The owner takes and releases levels; it stops being the owner with the last one,
  // and nobody else can do anything about that.
  lemma NextHold(s: Sys, step: Step, t: nat, m: nat)
    requires Wf(s) && Enabled(s, step) && m < |s.ms| && s.ms[m].owner == Some(t)
    ensures var r, h := Next(s, step), Level(s.ms[m].hold, step, t, m);
      && m < |r.ms| && (r.ms[m].owner == Some(t) <==> h > 0) && (h > 0 ==> r.ms[m].hold == h)
  {
    hide Take, Release, GiveUp, Wake, SetCeiling;
    assert MutexOk(s, m);
    match step
    case DoTake(u, k, wait) =>
      assert MutexOk(s, k);
      if s.ms[k].owner == Some(u) { TakeRecursive(s, u, k, wait); }
      else if s.ms[k].owner.None? { TakeUnowned(s, u, k, wait); }
      else {
        TakeContended(s, u, k, wait);
        if wait { assert Ownership(s.ms[m], Take(s, u, k, wait).ms[m]); }
      }
    case DoRelease(u, k) => ReleaseOutcome(s, u, k);
    case DoWake(u, e) => WakeOutcome(s, u, e);
    case DoGiveUp(u) =>
      GiveUpOutcome(s, u);
      assert SameMutex(s.ms[m], GiveUp(s, u).ms[m]);
    case DoCeiling(k, p) =>
      CeilingOutcome(s, k, p);
      if p < PRIORITY_MAX {
        assert SameMutex(s.ms[k := s.ms[k].(ceiling := p)][m], SetCeiling(s, k, p).ms[m]);
      }
    case DoSleep(u) =>
    case DoResume(u) =>
    case DoControl(u, p, reset) =>
  }

  function LevelAfter(h: nat, steps: seq<Step>, t: nat, m: nat): nat
    decreases |steps|
  {
    if steps == [] then h else LevelAfter(Level(h, steps[0], t, m), steps[1..], t, m)
  }

  // t has not yet released m as often as it took it.
  ghost predicate StillHolds(h: nat, steps: seq<Step>, t: nat, m: nat)
    decreases |steps|
  {
    h > 0 && (steps == [] || StillHolds(Level(h, steps[0], t, m), steps[1..], t, m))
  }

  ghost predicate OwnsThroughout(s: Sys, steps: seq<Step>, t: nat, m: nat)
    requires Wf(s) && Legal(s, steps)
    decreases |steps|
  {
    && m < |s.ms| && s.ms[m].owner == Some(t)
    && (steps == [] || OwnsThroughout(Next(s, steps[0]), steps[1..], t, m))
  }

  // Mutual exclusion over a run: whatever anybody calls, an owner stays the only owner
  // until it has released the mutex as often as it took it, and not longer.
  lemma {:induction false} OwnedUntilReleased(s: Sys, steps: seq<Step>, t: nat, m: nat)
    requires Wf(s) && Legal(s, steps) && m < |s.ms| && s.ms[m].owner == Some(t)
    ensures OwnsThroughout(s, steps, t, m) <==> StillHolds(s.ms[m].hold, steps, t, m)
    ensures StillHolds(s.ms[m].hold, steps, t, m) ==>
      m < |Run(s, steps).ms| && Run(s, steps).ms[m].hold == LevelAfter(s.ms[m].hold, steps, t, m)
    decreases |steps|
  {
    hide Next;
    assert MutexOk(s, m);
    if steps != [] {
      NextHold(s, steps[0], t, m);
      var r := Next(s, steps[0]);
      if r.ms[m].owner == Some(t) { OwnedUntilReleased(r, steps[1..], t, m); }
    }
  }
}
