// The atomic steps of the mutex protocol as functions of the state, and what
// every one of them keeps. One step is one critical section of ipc.c (the
// mutex spinlock is held), or one event of the environment.

module MutexSteps {
  import opened Common
  import opened MutexModel

  // Thread t is executing its own code: not parked, and not between being
  // woken on a mutex and looking at what happened.
  ghost predicate Running(s: Sys, t: nat) {
    t < |s.ts| && !s.ts[t].suspended && s.ts[t].pending.None?
  }

  // A waiter that was unlinked by a timeout or a resume and has not run yet.
  ghost predicate Woken(s: Sys, t: nat) {
    t < |s.ts| && !s.ts[t].suspended && s.ts[t].pending.Some?
  }

  function SetError(s: Sys, t: nat, e: Err): Sys
    requires t < |s.ts|
  {
    s.(ts := s.ts[t := s.ts[t].(error := e)])
  }

  // _thread_update_priority
  ghost function UpdatePriority(s: Sys, t: nat, p: nat): (r: Sys)
    requires Wf(s) && t < |s.ts| && p < PRIORITY_MAX
    ensures Wf(r) && SameShape(s, r)
  {
    SetCurrWf(s, t, p);
    var s1 := SetCurr(s, t, p);
    SameShapeTrans(s, s1, Propagate(s1, t, Tids(|s.ts|) - {t}));
    Propagate(s1, t, Tids(|s.ts|) - {t})
  }

  // --- take ---------------------------------------------------------------

  function Held(s: Sys, t: nat, m: nat): Sys
    requires t < |s.ts| && m < |s.ms|
  {
    s.(ms := s.ms[m := s.ms[m].(hold := s.ms[m].hold + 1)])
  }

  // An unowned mutex goes to t, which rises to the ceiling if there is one.
  function Acquired(s: Sys, t: nat, m: nat): Sys
    requires t < |s.ts| && m < |s.ms|
  {
    var c := s.ms[m].ceiling;
    var p := if c != NO_PRIORITY && c < s.ts[t].curr then c else s.ts[t].curr;
    Sys(s.ts[t := s.ts[t].(taken := [m] + s.ts[t].taken, curr := p)],
        s.ms[m := s.ms[m].(owner := Some(t), prio := NO_PRIORITY, hold := 1)])
  }

  // t parks itself on m; the mutex and its owner have not been told yet.
  function Parked(s: Sys, t: nat, m: nat): Sys
    requires t < |s.ts| && m < |s.ms| && Below(s.ms[m].waiters, |s.ts|)
  {
    Sys(s.ts[t := s.ts[t].(suspended := true, pending := Some(m))],
        s.ms[m := s.ms[m].(waiters := Enqueued(s.ts, s.ms[m].waiters, t))])
  }

  function Advertised(s: Sys, m: nat, p: nat): Sys
    requires m < |s.ms|
  {
    s.(ms := s.ms[m := s.ms[m].(prio := p)])
  }

  ghost function Blocked(s: Sys, t: nat, m: nat): (r: Sys)
    requires Wf(s) && Running(s, t) && m < |s.ms|
    requires s.ms[m].owner.Some? && s.ms[m].owner != Some(t)
    ensures Wf(r)
  {
    ParkedWf(s, t, m);
    assert ThreadOk(s, t);
    var s1 := Parked(s, t, m);
    var p := s.ts[t].curr;
    if p < s.ms[m].prio then
      AdvertisedWf(s1, m, p);
      var s2 := Advertised(s1, m, p);
      var o := s.ms[m].owner.value;
      if p < s2.ts[o].curr then UpdatePriority(s2, o, p) else s2
    else s1
  }

  lemma ParkedWf(s: Sys, t: nat, m: nat)
    requires Wf(s) && Running(s, t) && m < |s.ms|
    requires s.ms[m].owner.Some? && s.ms[m].owner != Some(t)
    ensures MutexOk(s, m) && Wf(Parked(s, t, m))
  {
    assert MutexOk(s, m);
    var s1 := Parked(s, t, m);
    assert t !in s.ms[m].waiters;
    EnqueuedNoDup(s.ts, s.ms[m].waiters, t);
    forall u | 0 <= u < |s1.ts| ensures ThreadOk(s1, u) { assert ThreadOk(s, u); }
    forall k | 0 <= k < |s1.ms| ensures MutexOk(s1, k) {
      assert MutexOk(s, k);
      assert k != m ==> t !in s.ms[k].waiters;
    }
  }

  lemma AdvertisedWf(s: Sys, m: nat, p: nat)
    requires Wf(s) && m < |s.ms| && s.ms[m].owner.Some? && p <= NO_PRIORITY
    ensures Wf(Advertised(s, m, p))
  {
    var s1 := Advertised(s, m, p);
    forall u | 0 <= u < |s1.ts| ensures ThreadOk(s1, u) { assert ThreadOk(s, u); }
    forall k | 0 <= k < |s1.ms| ensures MutexOk(s1, k) { assert MutexOk(s, k); }
  }

  lemma SetErrorWf(s: Sys, t: nat, e: Err)
    requires Wf(s) && t < |s.ts|
    ensures Wf(SetError(s, t, e))
  {
    var s1 := SetError(s, t, e);
    forall u | 0 <= u < |s1.ts| ensures ThreadOk(s1, u) { assert ThreadOk(s, u); }
    forall k | 0 <= k < |s1.ms| ensures MutexOk(s1, k) { assert MutexOk(s, k); }
  }

  lemma AcquiredWf(s: Sys, t: nat, m: nat)
    requires Wf(s) && Running(s, t) && m < |s.ms| && s.ms[m].owner.None?
    ensures Wf(Acquired(s, t, m))
  {
    var s1 := Acquired(s, t, m);
    assert ThreadOk(s, t) && MutexOk(s, m);
    assert m !in s.ts[t].taken;
    forall u | 0 <= u < |s1.ts| ensures ThreadOk(s1, u) {
      assert ThreadOk(s, u);
      if s.ts[u].pending == Some(m) && s.ts[u].suspended { assert u in s.ms[m].waiters; }
    }
    forall k | 0 <= k < |s1.ms| ensures MutexOk(s1, k) { assert MutexOk(s, k); }
  }

  lemma HeldWf(s: Sys, t: nat, m: nat)
    requires Wf(s) && t < |s.ts| && m < |s.ms| && s.ms[m].owner == Some(t) && s.ms[m].hold < HOLD_MAX
    ensures Wf(Held(s, t, m))
  {
    var s1 := Held(s, t, m);
    forall u | 0 <= u < |s1.ts| ensures ThreadOk(s1, u) { assert ThreadOk(s, u); }
    forall k | 0 <= k < |s1.ms| ensures MutexOk(s1, k) { assert MutexOk(s, k); }
  }

  // _rt_mutex_take up to the point where the caller returns or sleeps.
  ghost function Take(s: Sys, t: nat, m: nat, wait: bool): (r: Sys)
    requires Wf(s) && Running(s, t) && m < |s.ms|
    ensures Wf(r)
  {
    SetErrorWf(s, t, EOK);
    var s0 := SetError(s, t, EOK);
    var mu := s.ms[m];
    if mu.owner == Some(t) then
      if mu.hold < HOLD_MAX then HeldWf(s0, t, m); Held(s0, t, m) else s0
    else if mu.owner.None? then AcquiredWf(s0, t, m); Acquired(s0, t, m)
    else if !wait then SetErrorWf(s0, t, ETIMEOUT); SetError(s0, t, ETIMEOUT)
    else Blocked(s0, t, m)
  }

  // --- release ------------------------------------------------------------

  // _check_and_update_prio, m being off the releaser's list already.
  ghost function DroppedPrio(s: Sys, t: nat, m: nat): (p: nat)
    requires Wf(s) && t < |s.ts| && m < |s.ms|
    ensures p < PRIORITY_MAX
    ensures Below(Remove(s.ts[t].taken, m), |s.ms|)
    ensures p == s.ts[t].curr || forall k :: k in Remove(s.ts[t].taken, m) ==> p <= s.ms[k].prio
  {
    assert ThreadOk(s, t);
    RemoveBelow(s.ts[t].taken, m, |s.ms|);
    if s.ms[m].ceiling != NO_PRIORITY || s.ts[t].curr == s.ms[m].prio
    then Inherited(s.ms, Remove(s.ts[t].taken, m), s.ts[t].init)
    else s.ts[t].curr
  }

  // The owner lets go: one mutex fewer, and its priority looked at again.
  ghost function Dropped(s: Sys, t: nat, m: nat): Sys
    requires Wf(s) && t < |s.ts| && m < |s.ms|
  {
    s.(ts := s.ts[t := s.ts[t].(taken := Remove(s.ts[t].taken, m), curr := DroppedPrio(s, t, m))])
  }

  // Mutex m, no longer in anyone's list, goes to its first waiter, or is free.
  ghost function Passed(s: Sys, m: nat): Sys
    requires m < |s.ms| && Below(s.ms[m].waiters, |s.ts|)
  {
    var mu := s.ms[m];
    if mu.waiters == [] then
      s.(ms := s.ms[m := mu.(owner := None, prio := NO_PRIORITY, hold := 0)])
    else
      var w := mu.waiters[0];
      var ws := mu.waiters[1..];
      var ts := s.ts[w := s.ts[w].(suspended := false, pending := None, taken := [m] + s.ts[w].taken)];
      Sys(ts, s.ms[m := mu.(owner := Some(w), hold := 1, waiters := ws, prio := HeadPrio(ts, ws))])
  }

  ghost predicate Releasable(s: Sys, t: nat, m: nat) {
    Wf(s) && Running(s, t) && m < |s.ms| && s.ms[m].owner == Some(t) && MutexOk(s, m)
  }

  // The releaser loses m from its list and nothing else.
  lemma ReleasedOwner(s: Sys, t: nat, m: nat)
    requires Releasable(s, t, m)
    ensures ThreadOk(Passed(Dropped(s, t, m), m), t)
  {
    assert ThreadOk(s, t);
    var rest := Remove(s.ts[t].taken, m);
    RemoveNoDup(s.ts[t].taken, m);
    assert Below(rest, |s.ms|);
    var s2 := Passed(Dropped(s, t, m), m);
    assert s2.ts[t].taken == rest && s2.ts[t].curr < PRIORITY_MAX;
    forall k | k in rest ensures s2.ms[k].owner == Some(t) {
      assert k != m && k in s.ts[t].taken;
    }
  }

  // The heir gains m.
  lemma ReleasedHeir(s: Sys, t: nat, m: nat)
    requires Releasable(s, t, m) && s.ms[m].waiters != []
    ensures ThreadOk(Passed(Dropped(s, t, m), m), s.ms[m].waiters[0])
  {
    var w := s.ms[m].waiters[0];
    assert w in s.ms[m].waiters;
    assert ThreadOk(s, w);
    assert m !in s.ts[w].taken;
    var s2 := Passed(Dropped(s, t, m), m);
    assert s2.ts[w].taken == [m] + s.ts[w].taken;
    forall k | k in s2.ts[w].taken ensures s2.ms[k].owner == Some(w) {
      assert k != m ==> k in s.ts[w].taken;
    }
  }

  lemma ReleasedThread(s: Sys, t: nat, m: nat, u: nat)
    requires Releasable(s, t, m) && u < |s.ts|
    ensures ThreadOk(Passed(Dropped(s, t, m), m), u)
  {
    var ws := s.ms[m].waiters;
    if u == t {
      ReleasedOwner(s, t, m);
    } else if ws != [] && u == ws[0] {
      ReleasedHeir(s, t, m);
    } else {
      assert ThreadOk(s, u);
      var s2 := Passed(Dropped(s, t, m), m);
      assert s2.ts[u] == s.ts[u];
      assert m !in s.ts[u].taken;
      assert ws != [] ==> ws == [ws[0]] + ws[1..];
    }
  }

  lemma ReleasedMutex(s: Sys, t: nat, m: nat, k: nat)
    requires Releasable(s, t, m) && k < |s.ms|
    ensures MutexOk(Passed(Dropped(s, t, m), m), k)
  {
    hide DroppedPrio;
    assert MutexOk(s, k) && ThreadOk(s, t);
    var ws := s.ms[m].waiters;
    if ws != [] {
      assert ws[0] in ws;
      if k == m {
        if |ws| > 1 { assert ThreadOk(s, ws[1]); }
        assert forall i :: 0 <= i < |ws[1..]| ==> ws[1..][i] == ws[i + 1];
      } else {
        assert ws[0] !in s.ms[k].waiters;
      }
    }
  }

  lemma ReleasedWf(s: Sys, t: nat, m: nat)
    requires Releasable(s, t, m)
    ensures Wf(Passed(Dropped(s, t, m), m))
  {
    var s2 := Passed(Dropped(s, t, m), m);
    forall u | 0 <= u < |s2.ts| ensures ThreadOk(s2, u) { ReleasedThread(s, t, m, u); }
    forall k | 0 <= k < |s2.ms| ensures MutexOk(s2, k) { ReleasedMutex(s, t, m, k); }
  }

  ghost function Release(s: Sys, t: nat, m: nat): (r: Sys)
    requires Wf(s) && Running(s, t) && m < |s.ms|
    ensures Wf(r)
  {
    assert MutexOk(s, m);
    if s.ms[m].owner != Some(t) then SetErrorWf(s, t, ERROR); SetError(s, t, ERROR)
    else if s.ms[m].hold > 1 then
      UnheldWf(s, t, m);
      s.(ms := s.ms[m := s.ms[m].(hold := s.ms[m].hold - 1)])
    else
      ReleasedWf(s, t, m);
      Passed(Dropped(s, t, m), m)
  }

  lemma UnheldWf(s: Sys, t: nat, m: nat)
    requires Wf(s) && m < |s.ms| && s.ms[m].owner == Some(t) && s.ms[m].hold > 1
    ensures Wf(s.(ms := s.ms[m := s.ms[m].(hold := s.ms[m].hold - 1)]))
  {
    var s1 := s.(ms := s.ms[m := s.ms[m].(hold := s.ms[m].hold - 1)]);
    forall u | 0 <= u < |s1.ts| ensures ThreadOk(s1, u) { assert ThreadOk(s, u); }
    forall k | 0 <= k < |s1.ms| ensures MutexOk(s1, k) { assert MutexOk(s, k); }
  }

  // --- timeout, resume, and the woken waiter ------------------------------

  // _thread_timeout (e == ETIMEOUT) or rt_thread_resume (e == EOK): the waiter
  // leaves the list; nothing else is told.
  function Unlinked(s: Sys, t: nat, e: Err): Sys
    requires t < |s.ts| && s.ts[t].pending.Some? && s.ts[t].pending.value < |s.ms|
  {
    var m := s.ts[t].pending.value;
    Sys(s.ts[t := s.ts[t].(suspended := false, error := if e == EOK then s.ts[t].error else e)],
        s.ms[m := s.ms[m].(waiters := Remove(s.ms[m].waiters, t))])
  }

  ghost function Wake(s: Sys, t: nat, e: Err): (r: Sys)
    requires Wf(s) && Chained(s, t)
    ensures Wf(r) && |r.ts| == |s.ts| && |r.ms| == |s.ms|
  {
    WakeWf(s, t, e);
    Unlinked(s, t, e)
  }

  lemma WakeWf(s: Sys, t: nat, e: Err)
    requires Wf(s) && Chained(s, t)
    ensures s.ts[t].pending.value < |s.ms| && Wf(Unlinked(s, t, e))
  {
    assert ThreadOk(s, t);
    var m := s.ts[t].pending.value;
    assert MutexOk(s, m);
    RemoveNoDup(s.ms[m].waiters, t);
    RemoveBelow(s.ms[m].waiters, t, |s.ts|);
    var s1 := Unlinked(s, t, e);
    forall u | 0 <= u < |s1.ts| ensures ThreadOk(s1, u) { assert ThreadOk(s, u); }
    forall k | 0 <= k < |s1.ms| ensures MutexOk(s1, k) {
      assert MutexOk(s, k);
      assert k != m ==> t !in s.ms[k].waiters;
    }
  }

  // The waiter runs and finds that it did not get the mutex (the tail of
  // _rt_mutex_take).
  ghost function GiveUp(s: Sys, t: nat): (r: Sys)
    requires Wf(s) && Woken(s, t)
    ensures Wf(r)
  {
    assert ThreadOk(s, t);
    var m := s.ts[t].pending.value;
    var s1 := Refreshed(s, m);
    assert MutexOk(s, m);
    var owner := s.ms[m].owner;
    var s2 :=
      if owner.Some? && s.ts[owner.value].curr == s.ts[t].curr then Rechecked(s1, owner.value)
      else s1;
    assert ThreadOk(s2, t);
    UnpendWf(s2, t);
    Unpended(s2, t)
  }

  ghost function Refreshed(s: Sys, m: nat): (r: Sys)
    requires Wf(s) && m < |s.ms|
    ensures Wf(r)
  {
    assert MutexOk(s, m);
    var s1 := Advertised(s, m, HeadPrio(s.ts, s.ms[m].waiters));
    assert Wf(s1) by {
      if s.ms[m].waiters != [] { assert ThreadOk(s, s.ms[m].waiters[0]); }
      if s.ms[m].owner.Some? { AdvertisedWf(s, m, HeadPrio(s.ts, s.ms[m].waiters)); } else { assert s1.ms == s.ms; }
    }
    s1
  }

  // Look up what thread o is owed, and pass it on if it differs.
  ghost function Rechecked(s: Sys, o: nat): (r: Sys)
    requires Wf(s) && o < |s.ts|
    ensures Wf(r) && SameShape(s, r)
  {
    assert ThreadOk(s, o);
    if Owed(s, o) != s.ts[o].curr then UpdatePriority(s, o, Owed(s, o)) else s
  }

  function Unpended(s: Sys, t: nat): Sys
    requires t < |s.ts|
  {
    s.(ts := s.ts[t := s.ts[t].(pending := None)])
  }

  lemma UnpendWf(s: Sys, t: nat)
    requires Wf(s) && t < |s.ts| && !s.ts[t].suspended
    ensures Wf(Unpended(s, t))
  {
    var s1 := Unpended(s, t);
    forall u | 0 <= u < |s1.ts| ensures ThreadOk(s1, u) { assert ThreadOk(s, u); }
    forall k | 0 <= k < |s1.ms| ensures MutexOk(s1, k) { assert MutexOk(s, k); }
  }

  // --- ceiling, and sleeping on something that is not a mutex --------------

  ghost function SetCeiling(s: Sys, m: nat, p: nat): (r: Sys)
    requires Wf(s) && m < |s.ms|
    ensures Wf(r)
  {
    if p < PRIORITY_MAX then
      var s1 := s.(ms := s.ms[m := s.ms[m].(ceiling := p)]);
      CeilingWf(s, m, p);
      assert MutexOk(s, m);
      if s.ms[m].owner.Some? then Rechecked(s1, s.ms[m].owner.value) else s1
    else s
  }

  lemma CeilingWf(s: Sys, m: nat, p: nat)
    requires Wf(s) && m < |s.ms| && p <= NO_PRIORITY
    ensures Wf(s.(ms := s.ms[m := s.ms[m].(ceiling := p)]))
  {
    var s1 := s.(ms := s.ms[m := s.ms[m].(ceiling := p)]);
    forall u | 0 <= u < |s1.ts| ensures ThreadOk(s1, u) { assert ThreadOk(s, u); }
    forall k | 0 <= k < |s1.ms| ensures MutexOk(s1, k) { assert MutexOk(s, k); }
  }

  // A thread sleeps on a semaphore, a queue, a delay ..., or wakes from one.
  ghost function Sleep(s: Sys, t: nat, asleep: bool): (r: Sys)
    requires Wf(s) && t < |s.ts| && s.ts[t].pending.None?
    ensures Wf(r)
  {
    var s1 := s.(ts := s.ts[t := s.ts[t].(suspended := asleep)]);
    assert Wf(s1) by {
      forall u | 0 <= u < |s1.ts| ensures ThreadOk(s1, u) { assert ThreadOk(s, u); }
      forall k | 0 <= k < |s1.ms| ensures MutexOk(s1, k) { assert MutexOk(s, k); }
    }
    s1
  }
}
