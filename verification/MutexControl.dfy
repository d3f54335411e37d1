// rt_thread_control writes a thread's priority without looking at mutexes
// (rt-thread/src/thread.c). When that keeps the two invariants.

module MutexControl {
  import opened Common
  import opened MutexModel
  import opened MutexSteps
  import opened MutexExact

  // RT_THREAD_CTRL_CHANGE_PRIORITY, and RT_THREAD_CTRL_RESET_PRIORITY, which also
  // writes the initial priority.
  ghost function Assigned(s: Sys, t: nat, p: nat, reset: bool): (r: Sys)
    requires Wf(s) && t < |s.ts| && p < PRIORITY_MAX
    ensures Wf(r) && |r.ts| == |s.ts| && |r.ms| == |s.ms|
  {
    AssignedWf(s, t, p, reset);
    Written(s, t, p, reset)
  }

  function Written(s: Sys, t: nat, p: nat, reset: bool): Sys
    requires t < |s.ts|
  {
    s.(ts := s.ts[t := s.ts[t].(curr := p, init := if reset then p else s.ts[t].init)])
  }

  lemma AssignedWf(s: Sys, t: nat, p: nat, reset: bool)
    requires Wf(s) && t < |s.ts| && p < PRIORITY_MAX
    ensures Wf(Written(s, t, p, reset))
  {
    var r := Written(s, t, p, reset);
    forall u | 0 <= u < |r.ts| ensures ThreadOk(r, u) { assert ThreadOk(s, u); }
    forall k | 0 <= k < |r.ms| ensures MutexOk(r, k) { assert MutexOk(s, k); }
  }

  // --- no inversion ------------------------------------------------------------

  // With priority p, t is still in its place in the list.
  ghost predicate KeepsPlace(ts: seq<Thread>, ws: seq<nat>, t: nat, p: nat) {
    && Below(ws, |ts|)
    && forall i, j :: 0 <= i < j < |ws| ==>
      (ws[j] == t ==> ts[ws[i]].curr <= p) && (ws[i] == t ==> p <= ts[ws[j]].curr)
  }

  // What a caller can look up beforehand: p is not below what t's mutexes
  // advertise, and if t waits, p neither outranks its mutex nor moves t in the list.
  ghost predicate Bears(s: Sys, t: nat, p: nat)
    requires t < |s.ts|
  {
    && (forall k :: k in s.ts[t].taken ==> k < |s.ms| && p <= s.ms[k].prio)
    && (Chained(s, t) ==>
          var m := s.ts[t].pending.value;
          m < |s.ms| && s.ms[m].prio <= p && KeepsPlace(s.ts, s.ms[m].waiters, t, p))
  }

  lemma AssignedList(ts: seq<Thread>, r: seq<Thread>, ws: seq<nat>, t: nat, p: nat)
    requires Below(ws, |ts|) && |r| == |ts| && t < |ts| && NoDup(ws) && Sorted(ts, ws)
    requires r[t].curr == p && forall u :: 0 <= u < |ts| && u != t ==> r[u].curr == ts[u].curr
    ensures Sorted(r, ws) <==> KeepsPlace(ts, ws, t, p)
  {
    if Sorted(r, ws) {
      forall i, j | 0 <= i < j < |ws|
        ensures (ws[j] == t ==> ts[ws[i]].curr <= p) && (ws[i] == t ==> p <= ts[ws[j]].curr)
      {
        assert r[ws[i]].curr <= r[ws[j]].curr;
      }
    }
  }

  lemma AssignedKeeps(s: Sys, t: nat, p: nat, reset: bool, k: nat)
    requires NoInversion(s) && t < |s.ts| && p < PRIORITY_MAX && k < |s.ms| && Bears(s, t, p)
    ensures var r := Assigned(s, t, p, reset); MutexOk(r, k) && Guarded(r, k)
  {
    var r := Assigned(s, t, p, reset);
    assert MutexOk(s, k) && Guarded(s, k) && MutexOk(r, k);
    AssignedList(s.ts, r.ts, s.ms[k].waiters, t, p);
    if t !in s.ms[k].waiters { SortedFrame(s.ts, r.ts, s.ms[k].waiters); }
  }

  // The inequality and the sorted lists survive if and only if Bears.
  lemma AssignedGuards(s: Sys, t: nat, p: nat, reset: bool)
    requires NoInversion(s) && t < |s.ts| && p < PRIORITY_MAX
    ensures NoInversion(Assigned(s, t, p, reset)) <==> Bears(s, t, p)
  {
    var r := Assigned(s, t, p, reset);
    if Bears(s, t, p) {
      forall k | 0 <= k < |r.ms| ensures MutexOk(r, k) && Guarded(r, k) { AssignedKeeps(s, t, p, reset, k); }
    }
    if NoInversion(r) {
      assert ThreadOk(s, t);
      forall k | k in s.ts[t].taken ensures k < |s.ms| && p <= s.ms[k].prio {
        assert MutexOk(r, k) && Guarded(r, k);
      }
      if Chained(s, t) {
        var m := s.ts[t].pending.value;
        assert MutexOk(s, m) && Guarded(s, m) && MutexOk(r, m) && Guarded(r, m);
        AssignedList(s.ts, r.ts, s.ms[m].waiters, t, p);
        var i :| 0 <= i < |s.ms[m].waiters| && s.ms[m].waiters[i] == t;
        assert s.ms[m].prio <= r.ts[s.ms[m].waiters[i]].curr;
      }
    }
  }

  // --- exactness ---------------------------------------------------------------

  // p is what t is owed, and if t heads the list of a mutex outside lax, that
  // advertises p already.
  ghost predicate Due(s: Sys, t: nat, p: nat, reset: bool, lax: set<nat>)
    requires t < |s.ts| && Below(s.ts[t].taken, |s.ms|)
  {
    && p == Inherited(s.ms, s.ts[t].taken, if reset then p else s.ts[t].init)
    && (Chained(s, t) ==>
          var m := s.ts[t].pending.value;
          m < |s.ms| && (m !in lax && s.ms[m].waiters != [] && s.ms[m].waiters[0] == t ==> p == s.ms[m].prio))
  }

  lemma AssignedPaid(s: Sys, t: nat, p: nat, reset: bool, u: nat)
    requires Wf(s) && t < |s.ts| && p < PRIORITY_MAX && u < |s.ts| && Paid(s, u)
    ensures Below(s.ts[t].taken, |s.ms|)
    ensures Paid(Assigned(s, t, p, reset), u) <==>
      (u == t ==> p == Inherited(s.ms, s.ts[t].taken, if reset then p else s.ts[t].init))
  {
    assert ThreadOk(s, t) && ThreadOk(Assigned(s, t, p, reset), u);
  }

  lemma AssignedFresh(s: Sys, t: nat, p: nat, reset: bool, k: nat, lax: set<nat>)
    requires ExactOutside(s, lax) && t < |s.ts| && p < PRIORITY_MAX && k < |s.ms|
    requires MutexOk(s, k) && (t in s.ms[k].waiters ==> KeepsPlace(s.ts, s.ms[k].waiters, t, p))
    ensures MutexOk(Assigned(s, t, p, reset), k)
    ensures FreshUnless(Assigned(s, t, p, reset), k, lax) <==>
      (k !in lax && s.ms[k].waiters != [] && s.ms[k].waiters[0] == t ==> p == s.ms[k].prio)
  {
    var r := Assigned(s, t, p, reset);
    assert FreshUnless(s, k, lax) && MutexOk(r, k);
    AssignedList(s.ts, r.ts, s.ms[k].waiters, t, p);
    if t !in s.ms[k].waiters { SortedFrame(s.ts, r.ts, s.ms[k].waiters); }
  }

  // Both invariants survive if and only if Bears and Due.
  lemma AssignedExact(s: Sys, t: nat, p: nat, reset: bool, lax: set<nat>)
    requires NoInversion(s) && ExactOutside(s, lax) && t < |s.ts| && p < PRIORITY_MAX
    ensures Below(s.ts[t].taken, |s.ms|)
    ensures var r := Assigned(s, t, p, reset);
      NoInversion(r) && ExactOutside(r, lax) <==> Bears(s, t, p) && Due(s, t, p, reset, lax)
  {
    var r := Assigned(s, t, p, reset);
    assert ThreadOk(s, t) && Paid(s, t);
    AssignedGuards(s, t, p, reset);
    if Bears(s, t, p) {
      forall k | 0 <= k < |s.ms| && MutexOk(s, k)
        ensures MutexOk(r, k) && (FreshUnless(r, k, lax) <==>
            (k !in lax && s.ms[k].waiters != [] && s.ms[k].waiters[0] == t ==> p == s.ms[k].prio))
      {
        AssignedFresh(s, t, p, reset, k, lax);
      }
      AssignedPaid(s, t, p, reset, t);
      if Due(s, t, p, reset, lax) {
        forall u | 0 <= u < |r.ts| ensures Paid(r, u) { assert Paid(s, u); AssignedPaid(s, t, p, reset, u); }
        forall k | 0 <= k < |r.ms| ensures MutexOk(r, k) && FreshUnless(r, k, lax) { assert MutexOk(s, k); }
      }
      if ExactOutside(r, lax) {
        assert Paid(r, t);
        if Chained(s, t) {
          var m := s.ts[t].pending.value;
          assert MutexOk(s, m) && MutexOk(r, m) && FreshUnless(r, m, lax);
        }
      }
    }
  }
}
