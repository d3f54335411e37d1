// Exact inheritance: a thread's priority is the best of its initial priority
// and of what its mutexes advertise. Kept by every step except two, and for
// those two the exact condition. Mutexes in `lax` may advertise anything: a
// waiter that was unlinked and has not run yet leaves such a mutex behind.

module MutexExact {
  import opened Common
  import opened MutexModel
  import opened MutexSteps

  lemma UpdateExact(s: Sys, t: nat, lax: set<nat>)
    requires Wf(s) && t < |s.ts| && ThreadOk(s, t)
    requires forall u :: 0 <= u < |s.ts| && u != t ==> Paid(s, u)
    requires forall k :: 0 <= k < |s.ms| ==> MutexOk(s, k) && FreshUnless(s, k, lax)
    ensures Owed(s, t) < PRIORITY_MAX && ExactOutside(UpdatePriority(s, t, Owed(s, t)), lax)
  {
    var p := Owed(s, t);
    SetCurrWf(s, t, p);
    var s1 := SetCurr(s, t, p);
    forall k | 0 <= k < |s1.ms| ensures FreshAt(s1, t, k, lax) {
      assert MutexOk(s, k) && FreshUnless(s, k, lax);
      SetCurrFresh(s, t, p, k, lax);
    }
    forall u | 0 <= u < |s1.ts| ensures Paid(s1, u) {
      SetCurrPaid(s, t, u);
    }
    PropagateExact(s1, t, Tids(|s.ts|) - {t}, lax);
  }

  lemma RecheckExact(s: Sys, t: nat, lax: set<nat>)
    requires Wf(s) && t < |s.ts|
    requires forall u :: 0 <= u < |s.ts| && u != t ==> Paid(s, u)
    requires forall k :: 0 <= k < |s.ms| ==> MutexOk(s, k) && FreshUnless(s, k, lax)
    ensures ExactOutside(Rechecked(s, t), lax)
  {
    assert ThreadOk(s, t);
    UpdateExact(s, t, lax);
    assert Owed(s, t) == s.ts[t].curr ==> Paid(s, t);
  }

  // What is owed depends on the mutexes held, and on nothing else.
  lemma OwedFrame(s: Sys, r: Sys, u: nat)
    requires u < |s.ts| && u < |r.ts| && |s.ms| == |r.ms| && ThreadOk(s, u) && ThreadOk(r, u)
    requires r.ts[u].taken == s.ts[u].taken && r.ts[u].init == s.ts[u].init
    requires forall k :: k in s.ts[u].taken ==> MutexPrio(r.ms[k]) == MutexPrio(s.ms[k])
    ensures Owed(r, u) == Owed(s, u)
  {
    InheritedFrame(s.ms, r.ms, s.ts[u].taken, s.ts[u].init);
  }

  // A thread stays paid when only mutex m, which it does not own, changed.
  lemma PaidFrame(s: Sys, r: Sys, m: nat, u: nat)
    requires Wf(r) && u < |s.ts| && u < |r.ts| && |s.ms| == |r.ms| && m < |s.ms| && Paid(s, u)
    requires r.ts[u].taken == s.ts[u].taken && r.ts[u].init == s.ts[u].init && r.ts[u].curr == s.ts[u].curr
    requires forall k :: 0 <= k < |s.ms| && k != m ==> MutexPrio(r.ms[k]) == MutexPrio(s.ms[k])
    requires m in s.ts[u].taken ==> MutexPrio(r.ms[m]) == MutexPrio(s.ms[m])
    ensures Paid(r, u)
  {
    assert ThreadOk(r, u);
    OwedFrame(s, r, u);
  }

  // --- take ---------------------------------------------------------------

  // t parked on m and m told; the owner not yet.
  ghost function Told(s: Sys, t: nat, m: nat): (r: Sys)
    requires Wf(s) && Running(s, t) && m < |s.ms|
    requires s.ms[m].owner.Some? && s.ms[m].owner != Some(t)
    ensures Wf(r)
  {
    ParkedWf(s, t, m);
    AdvertisedWf(Parked(s, t, m), m, Min(s.ms[m].prio, s.ts[t].curr));
    Advertised(Parked(s, t, m), m, Min(s.ms[m].prio, s.ts[t].curr))
  }

  lemma ToldFresh(s: Sys, t: nat, m: nat, k: nat, lax: set<nat>)
    requires ExactOutside(s, lax) && Running(s, t) && m < |s.ms| && k < |s.ms|
    requires s.ms[m].owner.Some? && s.ms[m].owner != Some(t)
    ensures MutexOk(Told(s, t, m), k) && FreshUnless(Told(s, t, m), k, lax)
  {
    var r := Told(s, t, m);
    assert MutexOk(s, k) && FreshUnless(s, k, lax) && MutexOk(r, k) && ThreadOk(s, t);
    if k == m {
      EnqueuedSorted(s.ts, s.ms[m].waiters, t);
    }
    SortedFrame(s.ts, r.ts, r.ms[k].waiters);
  }

  lemma ToldPaid(s: Sys, t: nat, m: nat, u: nat, lax: set<nat>)
    requires ExactOutside(s, lax) && Running(s, t) && m < |s.ms| && u < |s.ts|
    requires s.ms[m].owner.Some? && s.ms[m].owner != Some(t) && s.ms[m].owner != Some(u)
    ensures Paid(Told(s, t, m), u)
  {
    assert Paid(s, u);
    assert m !in s.ts[u].taken;
    PaidFrame(s, Told(s, t, m), m, u);
  }

  lemma BlockedExact(s: Sys, t: nat, m: nat, lax: set<nat>)
    requires ExactOutside(s, lax) && Running(s, t) && m < |s.ms|
    requires s.ms[m].owner.Some? && s.ms[m].owner != Some(t)
    ensures ExactOutside(Blocked(s, t, m), lax)
  {
    hide UpdatePriority, SumCurr;
    assert MutexOk(s, m);
    var o := s.ms[m].owner.value;
    var p := s.ts[t].curr;
    var s2 := Told(s, t, m);
    forall k | 0 <= k < |s2.ms| ensures MutexOk(s2, k) && FreshUnless(s2, k, lax) { ToldFresh(s, t, m, k, lax); }
    forall u | 0 <= u < |s2.ts| && u != o ensures Paid(s2, u) { ToldPaid(s, t, m, u, lax); }
    assert Paid(s, o) && ThreadOk(s2, o) && ThreadOk(s, t);
    OwnerOwed(s, s2, m, o);
    if p < s.ms[m].prio && p < s.ts[o].curr {
      UpdateExact(s2, o, lax);
    } else {
      assert Paid(s2, o);
      assert p >= s.ms[m].prio ==> s2.ms == Parked(s, t, m).ms;
      assert Blocked(s, t, m) == s2;
    }
  }

  // The debt of m's owner after m's priority improved.
  lemma OwnerOwed(s: Sys, r: Sys, m: nat, o: nat)
    requires o < |s.ts| && |r.ts| == |s.ts| && |r.ms| == |s.ms| && m < |s.ms|
    requires Paid(s, o) && ThreadOk(r, o) && m in s.ts[o].taken
    requires r.ts[o].taken == s.ts[o].taken && r.ts[o].init == s.ts[o].init
    requires r.ms == s.ms[m := r.ms[m]] && r.ms[m].ceiling == s.ms[m].ceiling && r.ms[m].prio <= s.ms[m].prio
    ensures Owed(r, o) == Min(s.ts[o].curr, r.ms[m].prio)
  {
    BetterInherited(s.ms, r.ms[m], m, s.ts[o].taken, s.ts[o].init);
  }

  lemma BetterInherited(ms: seq<Mutex>, mu: Mutex, m: nat, taken: seq<nat>, init: nat)
    requires m < |ms| && Below(taken, |ms|) && m in taken
    requires mu.ceiling == ms[m].ceiling && mu.prio <= ms[m].prio
    ensures Inherited(ms[m := mu], taken, init) == Min(Inherited(ms, taken, init), mu.prio)
  {
    var ms' := ms[m := mu];
    var c := Inherited(ms, taken, init);
    var p := Min(c, mu.prio);
    assert c <= MutexPrio(ms[m]);
    if c != init {
      var k :| k in taken && c == MutexPrio(ms[k]);
      assert k == m ==> p == MutexPrio(ms'[m]);
      assert k != m && p == c ==> p == MutexPrio(ms'[k]);
    }
    assert p == mu.prio ==> p == MutexPrio(ms'[m]);
    InheritedIs(ms', taken, init, p);
  }

  lemma ErrorExact(s: Sys, t: nat, e: Err, lax: set<nat>)
    requires ExactOutside(s, lax) && t < |s.ts|
    ensures ExactOutside(SetError(s, t, e), lax)
  {
    SetErrorWf(s, t, e);
    var r := SetError(s, t, e);
    forall k | 0 <= k < |r.ms| ensures MutexOk(r, k) && FreshUnless(r, k, lax) {
      assert MutexOk(r, k) && MutexOk(s, k) && FreshUnless(s, k, lax);
    }
    forall u | 0 <= u < |r.ts| ensures Paid(r, u) { assert Paid(s, u) && ThreadOk(r, u); }
  }

  lemma HeldExact(s: Sys, t: nat, m: nat, lax: set<nat>)
    requires ExactOutside(s, lax) && t < |s.ts| && m < |s.ms| && s.ms[m].owner == Some(t) && s.ms[m].hold < HOLD_MAX
    ensures ExactOutside(Held(s, t, m), lax)
  {
    HeldWf(s, t, m);
    var r := Held(s, t, m);
    forall k | 0 <= k < |r.ms| ensures MutexOk(r, k) && FreshUnless(r, k, lax) {
      assert MutexOk(r, k) && MutexOk(s, k) && FreshUnless(s, k, lax);
    }
    forall u | 0 <= u < |r.ts| ensures Paid(r, u) {
      assert Paid(s, u) && ThreadOk(r, u);
      OwedFrame(s, r, u);
    }
  }

  lemma AcquiredExact(s: Sys, t: nat, m: nat, lax: set<nat>)
    requires ExactOutside(s, lax) && Running(s, t) && m < |s.ms| && s.ms[m].owner.None?
    ensures ExactOutside(Acquired(s, t, m), lax)
  {
    AcquiredWf(s, t, m);
    var r := Acquired(s, t, m);
    forall k | 0 <= k < |r.ms| ensures MutexOk(r, k) && FreshUnless(r, k, lax) {
      assert MutexOk(r, k) && MutexOk(s, k) && FreshUnless(s, k, lax);
      assert t !in s.ms[k].waiters;
    }
    forall u | 0 <= u < |r.ts| ensures Paid(r, u) {
      assert Paid(s, u) && ThreadOk(r, u);
      if u == t { ConsOwed(s, r, t, m); } else { OwedFrame(s, r, u); }
    }
  }

  lemma TakeExact(s: Sys, t: nat, m: nat, wait: bool, lax: set<nat>)
    requires ExactOutside(s, lax) && Running(s, t) && m < |s.ms|
    ensures ExactOutside(Take(s, t, m, wait), lax)
  {
    hide ExactOutside;
    ErrorExact(s, t, EOK, lax);
    var s0 := SetError(s, t, EOK);
    if s.ms[m].owner == Some(t) {
      if s.ms[m].hold < HOLD_MAX { HeldExact(s0, t, m, lax); }
    } else if s.ms[m].owner.None? {
      AcquiredExact(s0, t, m, lax);
    } else if wait {
      BlockedExact(s0, t, m, lax);
    } else {
      ErrorExact(s0, t, ETIMEOUT, lax);
    }
  }

  // One more mutex: the debt is the better of the old one and the newcomer's.
  lemma ConsInherited(ms: seq<Mutex>, m: nat, taken: seq<nat>, init: nat)
    requires m < |ms| && Below(taken, |ms|)
    ensures Below([m] + taken, |ms|)
    ensures Inherited(ms, [m] + taken, init) == Min(Inherited(ms, taken, init), MutexPrio(ms[m]))
  {
    var all := [m] + taken;
    var p := Inherited(ms, taken, init);
    assert all[0] == m;
    if p != init {
      var k :| k in taken && p == MutexPrio(ms[k]);
      assert k in all;
    }
    InheritedIs(ms, all, init, Min(p, MutexPrio(ms[m])));
  }

  lemma RemoveInherited(ms: seq<Mutex>, m: nat, taken: seq<nat>, init: nat)
    requires Below(taken, |ms|) && m in taken
    ensures Below(Remove(taken, m), |ms|)
    ensures Inherited(ms, taken, init) == Min(Inherited(ms, Remove(taken, m), init), MutexPrio(ms[m]))
  {
    RemoveBelow(taken, m, |ms|);
    var rest := Remove(taken, m);
    var p := Inherited(ms, rest, init);
    if p != init {
      var k :| k in rest && p == MutexPrio(ms[k]);
      assert k in taken;
    }
    forall k | k in taken ensures Min(p, MutexPrio(ms[m])) <= MutexPrio(ms[k]) {
      assert k == m || k in rest;
    }
    InheritedIs(ms, taken, init, Min(p, MutexPrio(ms[m])));
  }

  lemma ConsOwed(s: Sys, r: Sys, t: nat, m: nat)
    requires t < |s.ts| && |r.ts| == |s.ts| && |r.ms| == |s.ms| && m < |s.ms|
    requires ThreadOk(s, t) && ThreadOk(r, t) && m !in s.ts[t].taken
    requires r.ts[t].taken == [m] + s.ts[t].taken && r.ts[t].init == s.ts[t].init
    requires forall k :: 0 <= k < |s.ms| && k != m ==> r.ms[k] == s.ms[k]
    ensures Owed(r, t) == Min(Owed(s, t), MutexPrio(r.ms[m]))
  {
    ConsInherited(r.ms, m, s.ts[t].taken, s.ts[t].init);
    InheritedFrame(s.ms, r.ms, s.ts[t].taken, s.ts[t].init);
  }

  // --- release ------------------------------------------------------------

  lemma DroppedOwed(s: Sys, t: nat, m: nat, lax: set<nat>)
    requires ExactOutside(s, lax) && Releasable(s, t, m)
    ensures Below(Remove(s.ts[t].taken, m), |s.ms|)
    ensures DroppedPrio(s, t, m) == Inherited(s.ms, Remove(s.ts[t].taken, m), s.ts[t].init)
  {
    assert Paid(s, t);
    RemoveInherited(s.ms, m, s.ts[t].taken, s.ts[t].init);
  }

  // The heir of a release, and whether the ceiling of the mutex is news to it.
  ghost predicate CeilingMissed(s: Sys, t: nat, m: nat)
    requires Releasable(s, t, m)
  {
    && s.ms[m].hold == 1 && s.ms[m].waiters != []
    && s.ms[m].ceiling < s.ts[s.ms[m].waiters[0]].curr
  }

  lemma ReleaserPaid(s: Sys, t: nat, m: nat, lax: set<nat>)
    requires ExactOutside(s, lax) && Releasable(s, t, m) && s.ms[m].hold == 1
    ensures var r := Release(s, t, m); t < |r.ts| && Paid(r, t)
  {
    var r := Release(s, t, m);
    assert ThreadOk(r, t) && ThreadOk(s, t);
    RemoveNoDup(s.ts[t].taken, m);
    DroppedOwed(s, t, m, lax);
    assert r.ts[t] == Dropped(s, t, m).ts[t];
    InheritedFrame(s.ms, r.ms, r.ts[t].taken, s.ts[t].init);
  }

  lemma BystanderPaid(s: Sys, t: nat, m: nat, u: nat, lax: set<nat>)
    requires ExactOutside(s, lax) && Releasable(s, t, m) && s.ms[m].hold == 1 && u < |s.ts| && u != t
    requires s.ms[m].waiters != [] ==> s.ms[m].waiters[0] != u
    ensures var r := Release(s, t, m); u < |r.ts| && Paid(r, u)
  {
    assert Paid(s, u);
    assert m !in s.ts[u].taken;
    PaidFrame(s, Release(s, t, m), m, u);
  }

  lemma HeirPaid(s: Sys, t: nat, m: nat, lax: set<nat>)
    requires ExactOutside(s, lax) && Releasable(s, t, m) && s.ms[m].hold == 1 && s.ms[m].waiters != []
    ensures ThreadOk(s, s.ms[m].waiters[0])
    ensures Paid(Release(s, t, m), s.ms[m].waiters[0]) <==> !CeilingMissed(s, t, m)
  {
    var r := Release(s, t, m);
    var ws := s.ms[m].waiters;
    var w := ws[0];
    assert FreshUnless(s, m, lax) && Paid(s, w) && ThreadOk(r, w) && ThreadOk(s, t);
    assert w in ws;
    assert m !in s.ts[w].taken;
    ConsOwed(s, r, w, m);
    if |ws| > 1 { assert s.ts[ws[0]].curr <= s.ts[ws[1]].curr; }
    assert r.ms[m].prio >= s.ts[w].curr;
  }

  // Only the releaser's priority moves.
  lemma ReleasedCurr(s: Sys, t: nat, m: nat, w: nat)
    requires Releasable(s, t, m) && s.ms[m].hold == 1 && w < |s.ts| && w != t
    ensures var r := Release(s, t, m); |r.ts| == |s.ts| && r.ts[w].curr == s.ts[w].curr
  {}

  lemma ReleasedFresh(s: Sys, t: nat, m: nat, k: nat, lax: set<nat>)
    requires ExactOutside(s, lax) && Releasable(s, t, m) && s.ms[m].hold == 1 && k < |s.ms|
    ensures MutexOk(Release(s, t, m), k) && FreshUnless(Release(s, t, m), k, lax)
  {
    var r := Release(s, t, m);
    var ws := s.ms[k].waiters;
    assert MutexOk(s, k) && FreshUnless(s, k, lax) && MutexOk(r, k);
    assert t !in ws;
    forall w | w in ws ensures r.ts[w].curr == s.ts[w].curr { ReleasedCurr(s, t, m, w); }
    SortedFrame(s.ts, r.ts, ws);
    if k == m && ws != [] {
      assert forall i :: 0 <= i < |ws[1..]| ==> ws[1..][i] == ws[i + 1];
    }
  }

  // A release is exact unless it hands over a mutex whose ceiling outranks the
  // new owner: the code does not raise the new owner to the ceiling.
  lemma ReleaseExact(s: Sys, t: nat, m: nat, lax: set<nat>)
    requires ExactOutside(s, lax) && Running(s, t) && m < |s.ms|
    ensures MutexOk(s, m)
    ensures ExactOutside(Release(s, t, m), lax) <==> !(s.ms[m].owner == Some(t) && CeilingMissed(s, t, m))
  {
    var r := Release(s, t, m);
    assert MutexOk(s, m);
    if s.ms[m].owner == Some(t) && s.ms[m].hold == 1 {
      forall k | 0 <= k < |r.ms| ensures MutexOk(r, k) && FreshUnless(r, k, lax) { ReleasedFresh(s, t, m, k, lax); }
      var ws := s.ms[m].waiters;
      forall u | 0 <= u < |r.ts| && (ws == [] || u != ws[0]) ensures Paid(r, u) {
        if u == t { ReleaserPaid(s, t, m, lax); } else { BystanderPaid(s, t, m, u, lax); }
      }
      if ws != [] { HeirPaid(s, t, m, lax); }
    } else {
      forall k | 0 <= k < |r.ms| ensures MutexOk(r, k) && FreshUnless(r, k, lax) {
        assert MutexOk(s, k) && FreshUnless(s, k, lax) && MutexOk(r, k);
      }
      forall u | 0 <= u < |r.ts| ensures Paid(r, u) {
        assert Paid(s, u);
        PaidFrame(s, r, m, u);
      }
    }
  }

  // Ownership goes to a most urgent waiter, with hold 1.
  lemma ReleaseHandsOver(s: Sys, t: nat, m: nat)
    requires NoInversion(s) && Releasable(s, t, m) && s.ms[m].hold == 1 && s.ms[m].waiters != []
    ensures var r := Release(s, t, m); r.ms[m].owner.Some? && r.ms[m].hold == 1
    ensures var r := Release(s, t, m); var w := r.ms[m].owner.value;
      && w in s.ms[m].waiters && w < |r.ts| && Running(r, w) && m in r.ts[w].taken
      && (forall x :: x in s.ms[m].waiters ==> x < |s.ts| && s.ts[w].curr <= s.ts[x].curr)
      && (forall x :: x in r.ms[m].waiters <==> x in s.ms[m].waiters && x != w)
  {
    assert MutexOk(s, m) && Guarded(s, m);
    var ws := s.ms[m].waiters;
    assert ws == [ws[0]] + ws[1..];
    assert forall i :: 0 <= i < |ws[1..]| ==> ws[1..][i] == ws[i + 1];
    assert ws[0] in ws;
  }

  // --- ceiling, sleep, timeout --------------------------------------------

  lemma CeilingExact(s: Sys, m: nat, p: nat, lax: set<nat>)
    requires ExactOutside(s, lax) && m < |s.ms|
    ensures ExactOutside(SetCeiling(s, m, p), lax)
  {
    if p < PRIORITY_MAX {
      CeilingWf(s, m, p);
      var s1 := s.(ms := s.ms[m := s.ms[m].(ceiling := p)]);
      forall k | 0 <= k < |s1.ms| ensures MutexOk(s1, k) && FreshUnless(s1, k, lax) {
        assert MutexOk(s1, k) && MutexOk(s, k) && FreshUnless(s, k, lax);
      }
      assert MutexOk(s, m);
      forall u | 0 <= u < |s1.ts| && s.ms[m].owner != Some(u) ensures Paid(s1, u) {
        assert Paid(s, u);
        PaidFrame(s, s1, m, u);
      }
      if s.ms[m].owner.Some? { RecheckExact(s1, s.ms[m].owner.value, lax); }
    }
  }

  lemma SleepExact(s: Sys, t: nat, asleep: bool, lax: set<nat>)
    requires ExactOutside(s, lax) && t < |s.ts| && s.ts[t].pending.None?
    ensures ExactOutside(Sleep(s, t, asleep), lax)
  {
    var r := Sleep(s, t, asleep);
    forall k | 0 <= k < |r.ms| ensures MutexOk(r, k) && FreshUnless(r, k, lax) {
      assert MutexOk(r, k) && MutexOk(s, k) && FreshUnless(s, k, lax);
    }
    forall u | 0 <= u < |r.ts| ensures Paid(r, u) {
      assert Paid(s, u) && ThreadOk(r, u);
      OwedFrame(s, r, u);
    }
  }
}
