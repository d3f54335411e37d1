// What a timed-out or resumed waiter leaves behind. The unlinking step tells
// nobody; the waiter repairs the mutex when it runs. The repair of the owner
// hangs on one comparison with the waiter's present priority.

module MutexTimeout {
  import opened Common
  import opened MutexModel
  import opened MutexSteps
  import opened MutexExact

  lemma RefreshedExact(s: Sys, m: nat, lax: set<nat>)
    requires ExactOutside(s, lax) && m < |s.ms|
    ensures var r := Refreshed(s, m);
      && (forall k :: 0 <= k < |r.ms| ==> MutexOk(r, k) && FreshUnless(r, k, lax - {m}))
      && (forall u :: 0 <= u < |r.ts| && s.ms[m].owner != Some(u) ==> Paid(r, u))
  {
    var r := Refreshed(s, m);
    forall k | 0 <= k < |r.ms| ensures MutexOk(r, k) && FreshUnless(r, k, lax - {m}) {
      assert MutexOk(s, k) && FreshUnless(s, k, lax) && MutexOk(r, k);
    }
    forall u | 0 <= u < |r.ts| && s.ms[m].owner != Some(u) ensures Paid(r, u) {
      assert Paid(s, u);
      PaidFrame(s, r, m, u);
    }
  }

  lemma UnpendPaid(s: Sys, t: nat, u: nat)
    requires Wf(s) && t < |s.ts| && !s.ts[t].suspended && u < |s.ts|
    ensures Paid(s, u) <==> Paid(Unpended(s, t), u)
  {
    UnpendWf(s, t);
    var r := Unpended(s, t);
    assert ThreadOk(s, u) && ThreadOk(r, u);
    OwedFrame(s, r, u);
  }

  lemma UnpendExact(s: Sys, t: nat, lax: set<nat>)
    requires ExactOutside(s, lax) && t < |s.ts| && !s.ts[t].suspended
    ensures ExactOutside(Unpended(s, t), lax)
  {
    UnpendWf(s, t);
    var r := Unpended(s, t);
    forall k | 0 <= k < |r.ms| ensures MutexOk(r, k) && FreshUnless(r, k, lax) {
      assert MutexOk(s, k) && MutexOk(r, k) && FreshUnless(s, k, lax);
    }
    forall u | 0 <= u < |r.ts| ensures Paid(r, u) { UnpendPaid(s, t, u); }
  }

  // The repair is exact if and only if the owner runs at the waiter's present
  // priority, or is not owed a different one; otherwise the owner is left at a
  // priority that it is not owed. Whatever other waiters left behind stays theirs.
  lemma GiveUpExact(s: Sys, t: nat, lax: set<nat>)
    requires Woken(s, t) && ExactOutside(s, lax)
    ensures var m := s.ts[t].pending.value; m < |s.ms| && MutexOk(s, m)
    ensures var m := s.ts[t].pending.value; var owner := s.ms[m].owner;
      owner.Some? ==> owner.value < |s.ts| && ThreadOk(Refreshed(s, m), owner.value)
    ensures var m := s.ts[t].pending.value; var owner := s.ms[m].owner; var r := GiveUp(s, t);
      if owner.Some? ==> s.ts[owner.value].curr == s.ts[t].curr
                         || s.ts[owner.value].curr == Owed(Refreshed(s, m), owner.value)
      then ExactOutside(r, lax - {m}) else |r.ts| == |s.ts| && !Paid(r, owner.value)
  {
    assert ThreadOk(s, t);
    var m := s.ts[t].pending.value;
    assert MutexOk(s, m);
    var s1 := Refreshed(s, m);
    var owner := s.ms[m].owner;
    RefreshedExact(s, m, lax);
    if owner.Some? {
      assert ThreadOk(s1, owner.value);
      if s.ts[owner.value].curr == s.ts[t].curr {
        RecheckExact(s1, owner.value, lax - {m});
        UnpendExact(Rechecked(s1, owner.value), t, lax - {m});
      } else if s.ts[owner.value].curr == Owed(s1, owner.value) {
        assert Paid(s1, owner.value);
        UnpendExact(s1, t, lax - {m});
      } else {
        UnpendPaid(s1, t, owner.value);
      }
    } else {
      UnpendExact(s1, t, lax - {m});
    }
  }

  // Something other than what the waiter left behind keeps owner o at its
  // present priority: its own, another mutex, the ceiling, or the next waiter.
  ghost predicate StillOwed(s: Sys, m: nat, o: nat)
    requires m < |s.ms| && o < |s.ts| && Below(s.ts[o].taken, |s.ms|) && Below(s.ms[m].waiters, |s.ts|)
  {
    var c := s.ts[o].curr;
    || c == s.ts[o].init
    || (exists k :: k in s.ts[o].taken && k != m && MutexPrio(s.ms[k]) == c)
    || s.ms[m].ceiling == c
    || HeadPrio(s.ts, s.ms[m].waiters) == c
  }

  lemma StillOwedIs(s: Sys, m: nat, o: nat, lax: set<nat>)
    requires ExactOutside(s, lax) && m < |s.ms| && MutexOk(s, m) && Guarded(s, m) && s.ms[m].owner == Some(o)
    ensures o < |s.ts| && Below(s.ts[o].taken, |s.ms|) && Below(s.ms[m].waiters, |s.ts|)
    ensures ThreadOk(Refreshed(s, m), o)
    ensures s.ts[o].curr == Owed(Refreshed(s, m), o) <==> StillOwed(s, m, o)
  {
    assert ThreadOk(s, o) && Paid(s, o);
    var r := Refreshed(s, m);
    assert ThreadOk(r, o) && MutexOk(r, m);
    var c, taken, head := s.ts[o].curr, s.ts[o].taken, HeadPrio(s.ts, s.ms[m].waiters);
    assert r.ts[o].taken == taken && r.ts[o].init == s.ts[o].init && m in taken;
    assert r.ms == s.ms[m := r.ms[m]] && MutexPrio(r.ms[m]) == Min(head, s.ms[m].ceiling);
    assert c <= MutexPrio(s.ms[m]) <= head;
    forall k | k in taken ensures c <= MutexPrio(r.ms[k]) { assert c <= MutexPrio(s.ms[k]); }
    if StillOwed(s, m, o) {
      if k :| k in taken && k != m && MutexPrio(s.ms[k]) == c { assert MutexPrio(r.ms[k]) == c; }
      assert c == s.ts[o].init || exists k :: k in taken && c == MutexPrio(r.ms[k]);
      InheritedIs(r.ms, taken, s.ts[o].init, c);
    }
  }

  // What a caller can look up before the waiter runs: nobody owns the mutex, the
  // owner runs at the waiter's priority, or it is owed its own anyway.
  ghost predicate Repairs(s: Sys, t: nat) {
    && Woken(s, t) && s.ts[t].pending.value < |s.ms|
    && var m := s.ts[t].pending.value; var owner := s.ms[m].owner;
      owner.Some? ==>
        && owner.value < |s.ts| && Below(s.ts[owner.value].taken, |s.ms|) && Below(s.ms[m].waiters, |s.ts|)
        && (s.ts[owner.value].curr == s.ts[t].curr || StillOwed(s, m, owner.value))
  }

  // In these terms: a waiter that gives up clears its own mutex's account if and
  // only if Repairs; otherwise it leaves a thread unpaid.
  lemma GiveUpExactWhen(s: Sys, t: nat, lax: set<nat>)
    requires Woken(s, t) && ExactOutside(s, lax)
    requires var m := s.ts[t].pending.value; m < |s.ms| && MutexOk(s, m) && Guarded(s, m)
    ensures var r := GiveUp(s, t);
      if Repairs(s, t) then ExactOutside(r, lax - {s.ts[t].pending.value})
      else exists u :: 0 <= u < |r.ts| && !Paid(r, u)
  {
    var m := s.ts[t].pending.value;
    GiveUpExact(s, t, lax);
    if s.ms[m].owner.Some? { StillOwedIs(s, m, s.ms[m].owner.value, lax); }
  }

  lemma WakeFresh(s: Sys, t: nat, e: Err, k: nat, lax: set<nat>)
    requires ExactOutside(s, lax) && Chained(s, t) && k < |s.ms|
    ensures MutexOk(Wake(s, t, e), k) && FreshUnless(Wake(s, t, e), k, lax + {s.ts[t].pending.value})
  {
    assert ThreadOk(s, t);
    var r := Wake(s, t, e);
    assert MutexOk(s, k) && MutexOk(r, k) && FreshUnless(s, k, lax);
    if s.ts[t].pending == Some(k) {
      ListOkRemove(s.ts, r.ts, s.ms[k].waiters, t, 0);
    } else {
      SortedFrame(s.ts, r.ts, s.ms[k].waiters);
    }
  }

  lemma WakePaid(s: Sys, t: nat, e: Err, u: nat)
    requires Wf(s) && Chained(s, t) && u < |s.ts| && Paid(s, u)
    ensures Paid(Wake(s, t, e), u)
  {
    assert ThreadOk(s, t);
    var r := Wake(s, t, e);
    assert ThreadOk(r, u);
    OwedFrame(s, r, u);
  }

  // Unlinking a waiter may leave its own mutex stale, and nothing else.
  lemma WakeExact(s: Sys, t: nat, e: Err, lax: set<nat>)
    requires ExactOutside(s, lax) && Chained(s, t)
    ensures ExactOutside(Wake(s, t, e), lax + {s.ts[t].pending.value})
  {
    var r := Wake(s, t, e);
    forall k | 0 <= k < |r.ms| ensures MutexOk(r, k) && FreshUnless(r, k, lax + {s.ts[t].pending.value}) {
      WakeFresh(s, t, e, k, lax);
    }
    forall u | 0 <= u < |r.ts| ensures Paid(r, u) {
      WakePaid(s, t, e, u);
    }
  }

  // A waiter that runs as soon as it is unlinked repairs what it left, unless
  // another waiter had left the same mutex behind.
  lemma PromptTimeoutExact(s: Sys, t: nat, e: Err, lax: set<nat>)
    requires ExactOutside(s, lax) && Chained(s, t) && s.ts[t].pending.value !in lax
    ensures ExactOutside(GiveUp(Wake(s, t, e), t), lax)
  {
    var m := s.ts[t].pending.value;
    assert ThreadOk(s, t) && MutexOk(s, m) && FreshUnless(s, m, lax);
    WakeExact(s, t, e, lax);
    var s1 := Wake(s, t, e);
    GiveUpExact(s1, t, lax + {m});
    if s.ts[s.ms[m].owner.value].curr != s.ts[t].curr { PromptOwed(s, t, e, lax); }
    assert lax + {m} - {m} == lax;
  }

  // The owner of the mutex, if it does not run at the waiter's priority, is still
  // owed its own.
  lemma PromptOwed(s: Sys, t: nat, e: Err, lax: set<nat>)
    requires ExactOutside(s, lax) && Chained(s, t) && s.ts[t].pending.value !in lax
    ensures var m := s.ts[t].pending.value; m < |s.ms| && s.ms[m].owner.Some? && s.ms[m].owner.value < |s.ts|
    ensures var s1, m := Wake(s, t, e), s.ts[t].pending.value; var o := s.ms[m].owner.value;
      ThreadOk(Refreshed(s1, m), o)
      && (s.ts[o].curr != s.ts[t].curr ==> s.ts[o].curr == Owed(Refreshed(s1, m), o))
  {
    var m := s.ts[t].pending.value;
    assert ThreadOk(s, t) && MutexOk(s, m) && FreshUnless(s, m, lax);
    var s1, o := Wake(s, t, e), s.ms[m].owner.value;
    assert Paid(s, o) && MutexOk(s1, m);
    WakePaid(s, t, e, o);
    var s2 := Refreshed(s1, m);
    assert ThreadOk(s2, o) && ThreadOk(s1, o);
    if s.ts[o].curr != s.ts[t].curr {
      HeadStays(s, t, m);
      assert s.ts[o].curr <= MutexPrio(s1.ms[m]);
      LaxerOwed(s1, s2, m, o);
    }
  }

  // If the head does not leave, the mutex advertises what it did before;
  // otherwise something no better.
  lemma HeadStays(s: Sys, t: nat, m: nat)
    requires m < |s.ms| && t in s.ms[m].waiters && MutexOk(s, m) && Fresh(s, m)
    requires Wf(s)
    ensures Below(Remove(s.ms[m].waiters, t), |s.ts|)
    ensures HeadPrio(s.ts, Remove(s.ms[m].waiters, t)) >= s.ms[m].prio
    ensures s.ms[m].prio != s.ts[t].curr ==> HeadPrio(s.ts, Remove(s.ms[m].waiters, t)) == s.ms[m].prio
  {
    var ws := s.ms[m].waiters;
    RemoveBelow(ws, t, |s.ts|);
    var i := RemoveSplit(ws, t);
    assert ThreadOk(s, ws[0]);
  }

  // The owner's debt when m's priority got no better, and the owner was not
  // running at it.
  lemma LaxerOwed(s: Sys, r: Sys, m: nat, o: nat)
    requires o < |s.ts| && |r.ts| == |s.ts| && |r.ms| == |s.ms| && m < |s.ms|
    requires Paid(s, o) && ThreadOk(r, o) && m in s.ts[o].taken
    requires r.ts[o].taken == s.ts[o].taken && r.ts[o].init == s.ts[o].init
    requires r.ms == s.ms[m := r.ms[m]] && r.ms[m].ceiling == s.ms[m].ceiling && r.ms[m].prio >= s.ms[m].prio
    requires s.ts[o].curr == s.ms[m].prio ==> r.ms[m].prio == s.ms[m].prio
    ensures Owed(r, o) == s.ts[o].curr
  {
    var c := s.ts[o].curr;
    var taken := s.ts[o].taken;
    if c != s.ts[o].init {
      var k :| k in taken && c == MutexPrio(s.ms[k]);
      assert c == MutexPrio(r.ms[k]);
    }
    forall k | k in taken ensures c <= MutexPrio(r.ms[k]) {
      assert c <= MutexPrio(s.ms[k]);
    }
    InheritedIs(r.ms, taken, s.ts[o].init, c);
  }
}
