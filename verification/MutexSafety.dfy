// No priority inversion: in every state of every run, with ceilings, timeouts
// and deadlocks, the owner of a mutex is at least as urgent as everyone who
// waits behind it, directly or further down the chain.

module MutexSafety {
  import opened Common
  import opened MutexModel
  import opened MutexSteps

  lemma UpdateGuards(s: Sys, t: nat, p: nat)
    requires Wf(s) && t < |s.ts| && p < PRIORITY_MAX
    requires forall k :: 0 <= k < |s.ms| ==> MutexOk(s, k) && ListGuarded(s, k)
    requires forall k :: 0 <= k < |s.ms| ==>
      MutexOk(s, k) && if s.ms[k].owner == Some(t) then p <= s.ms[k].prio else Guarded(s, k)
    ensures NoInversion(UpdatePriority(s, t, p))
  {
    SetCurrWf(s, t, p);
    var s1 := SetCurr(s, t, p);
    forall k | 0 <= k < |s1.ms| ensures GuardedAt(s1, t, k) {
      SetCurrGuards(s, t, p, k);
    }
    PropagateGuards(s1, t, Tids(|s.ts|) - {t});
  }

  lemma RecheckGuards(s: Sys, o: nat)
    requires NoInversion(s) && o < |s.ts|
    ensures NoInversion(Rechecked(s, o))
  {
    assert ThreadOk(s, o);
    var p := Owed(s, o);
    if p != s.ts[o].curr {
      forall k | 0 <= k < |s.ms|
        ensures MutexOk(s, k) && if s.ms[k].owner == Some(o) then p <= s.ms[k].prio else Guarded(s, k)
      {
        assert MutexOk(s, k) && Guarded(s, k);
      }
      UpdateGuards(s, o, p);
    }
  }

  // With the better of the old priority and the newcomer's, every wait list is
  // in order again; only m's owner may still be behind.
  lemma ParkedGuards(s: Sys, t: nat, m: nat, k: nat)
    requires NoInversion(s) && Running(s, t) && m < |s.ms| && k < |s.ms|
    requires s.ms[m].owner.Some? && s.ms[m].owner != Some(t)
    ensures MutexOk(s, m) && Wf(Advertised(Parked(s, t, m), m, Min(s.ms[m].prio, s.ts[t].curr)))
    ensures var s2 := Advertised(Parked(s, t, m), m, Min(s.ms[m].prio, s.ts[t].curr));
      && MutexOk(s2, k) && ListGuarded(s2, k)
      && (k != m ==> Guarded(s2, k))
  {
    ParkedWf(s, t, m);
    var s1 := Parked(s, t, m);
    var p := Min(s.ms[m].prio, s.ts[t].curr);
    assert ThreadOk(s, t);
    AdvertisedWf(s1, m, p);
    var s2 := Advertised(s1, m, p);
    assert MutexOk(s, k) && Guarded(s, k) && MutexOk(s2, k);
    EnqueuedOk(s.ts, s.ms[m].waiters, t, s.ms[m].prio);
    ListOkFrame(s.ts, s2.ts, s2.ms[k].waiters, s2.ms[k].prio);
  }

  lemma BlockedGuards(s: Sys, t: nat, m: nat)
    requires NoInversion(s) && Running(s, t) && m < |s.ms|
    requires s.ms[m].owner.Some? && s.ms[m].owner != Some(t)
    ensures NoInversion(Blocked(s, t, m))
  {
    ParkedGuards(s, t, m, m);
    ParkedWf(s, t, m);
    assert ThreadOk(s, t) && MutexOk(s, m) && Guarded(s, m);
    var o := s.ms[m].owner.value;
    var p := s.ts[t].curr;
    var s2 := Advertised(Parked(s, t, m), m, Min(s.ms[m].prio, p));
    forall k | 0 <= k < |s2.ms|
      ensures MutexOk(s2, k) && ListGuarded(s2, k) && (k != m ==> Guarded(s2, k))
    {
      ParkedGuards(s, t, m, k);
    }
    if p < s.ms[m].prio && p < s2.ts[o].curr {
      forall k | 0 <= k < |s2.ms| && s2.ms[k].owner == Some(o) ensures p <= s2.ms[k].prio {
        assert MutexOk(s, k) && Guarded(s, k);
      }
      UpdateGuards(s2, o, p);
    } else {
      assert Guarded(s2, m);
      assert p >= s.ms[m].prio ==> s2.ms == Parked(s, t, m).ms;
    }
  }

  lemma TakeGuards(s: Sys, t: nat, m: nat, wait: bool)
    requires NoInversion(s) && Running(s, t) && m < |s.ms|
    ensures NoInversion(Take(s, t, m, wait))
  {
    SetErrorWf(s, t, EOK);
    var s0 := SetError(s, t, EOK);
    var r := Take(s, t, m, wait);
    forall k | 0 <= k < |s0.ms| ensures MutexOk(s0, k) && Guarded(s0, k) {
      assert MutexOk(s0, k) && MutexOk(s, k) && Guarded(s, k);
    }
    if s.ms[m].owner.Some? && s.ms[m].owner != Some(t) && wait {
      BlockedGuards(s0, t, m);
    } else {
      forall k | 0 <= k < |r.ms| ensures MutexOk(r, k) && Guarded(r, k) {
        assert MutexOk(r, k) && MutexOk(s0, k) && Guarded(s0, k);
        assert t !in s0.ms[k].waiters;
        assert ThreadOk(r, t) && ThreadOk(s0, t);
      }
    }
  }

  lemma DroppedGuards(s: Sys, t: nat, m: nat, k: nat)
    requires NoInversion(s) && Releasable(s, t, m) && k < |s.ms|
    ensures var s1 := Dropped(s, t, m);
      && MutexOk(s, k) && Below(s1.ms[k].waiters, |s1.ts|)
      && ListGuarded(s1, k) && (k != m ==> Guarded(s1, k))
  {
    assert MutexOk(s, k) && Guarded(s, k) && ThreadOk(s, t);
    assert t !in s.ms[k].waiters;
    var s1 := Dropped(s, t, m);
    assert ListGuarded(s1, k);
    if s.ms[k].owner == Some(t) && k != m {
      assert k in Remove(s.ts[t].taken, m);
      assert s1.ts[t].curr <= s.ms[k].prio;
    }
  }

  lemma PassedGuards(s: Sys, m: nat, k: nat)
    requires m < |s.ms| && k < |s.ms| && Below(s.ms[m].waiters, |s.ts|) && Below(s.ms[k].waiters, |s.ts|)
    requires ListGuarded(s, k) && (k != m ==> Guarded(s, k))
    requires Below(Passed(s, m).ms[k].waiters, |s.ts|)
    requires forall i :: 0 <= i < |s.ms[m].waiters| ==> s.ts[s.ms[m].waiters[i]].curr < NO_PRIORITY
    ensures Guarded(Passed(s, m), k)
  {
    if k == m && s.ms[m].waiters != [] {
      var ws := s.ms[m].waiters;
      assert forall i :: 0 <= i < |ws[1..]| ==> ws[1..][i] == ws[i + 1];
    }
  }

  lemma ReleaseGuards(s: Sys, t: nat, m: nat)
    requires NoInversion(s) && Running(s, t) && m < |s.ms|
    ensures NoInversion(Release(s, t, m))
  {
    var r := Release(s, t, m);
    assert MutexOk(s, m);
    if s.ms[m].owner == Some(t) && s.ms[m].hold == 1 {
      ReleasedWf(s, t, m);
      forall i | 0 <= i < |s.ms[m].waiters| ensures s.ts[s.ms[m].waiters[i]].curr < NO_PRIORITY {
        assert ThreadOk(s, s.ms[m].waiters[i]);
      }
      forall k | 0 <= k < |r.ms| ensures MutexOk(r, k) && Guarded(r, k) {
        assert MutexOk(r, k);
        DroppedGuards(s, t, m, k);
        assert Dropped(s, t, m).ts[t].curr < PRIORITY_MAX by { assert ThreadOk(s, t); }
        PassedGuards(Dropped(s, t, m), m, k);
      }
    } else {
      forall k | 0 <= k < |r.ms| ensures MutexOk(r, k) && Guarded(r, k) {
        assert MutexOk(r, k) && MutexOk(s, k) && Guarded(s, k);
      }
    }
  }

  lemma WakeGuardsAt(s: Sys, t: nat, e: Err, k: nat)
    requires NoInversion(s) && Chained(s, t) && k < |s.ms|
    ensures MutexOk(Wake(s, t, e), k) && Guarded(Wake(s, t, e), k)
  {
    assert ThreadOk(s, t);
    var r := Wake(s, t, e);
    assert MutexOk(r, k) && MutexOk(s, k) && Guarded(s, k);
    if s.ts[t].pending == Some(k) {
      ListOkRemove(s.ts, r.ts, s.ms[k].waiters, t, s.ms[k].prio);
    } else {
      ListOkFrame(s.ts, r.ts, s.ms[k].waiters, s.ms[k].prio);
    }
  }

  lemma WakeGuards(s: Sys, t: nat, e: Err)
    requires NoInversion(s) && Chained(s, t)
    ensures NoInversion(Wake(s, t, e))
  {
    var r := Wake(s, t, e);
    forall k | 0 <= k < |r.ms| ensures MutexOk(r, k) && Guarded(r, k) { WakeGuardsAt(s, t, e, k); }
  }

  lemma RefreshGuards(s: Sys, m: nat)
    requires NoInversion(s) && m < |s.ms|
    ensures NoInversion(Refreshed(s, m))
  {
    var r := Refreshed(s, m);
    forall k | 0 <= k < |r.ms| ensures MutexOk(r, k) && Guarded(r, k) {
      assert MutexOk(r, k) && MutexOk(s, k) && Guarded(s, k);
      if k == m && s.ms[m].owner.Some? && s.ms[m].waiters == [] {
        assert ThreadOk(s, s.ms[m].owner.value);
      }
    }
  }

  lemma UnpendGuards(s: Sys, t: nat)
    requires NoInversion(s) && t < |s.ts| && !s.ts[t].suspended
    ensures NoInversion(Unpended(s, t))
  {
    UnpendWf(s, t);
    var r := Unpended(s, t);
    forall k | 0 <= k < |r.ms| ensures MutexOk(r, k) && Guarded(r, k) {
      assert MutexOk(r, k) && MutexOk(s, k) && Guarded(s, k);
    }
  }

  lemma GiveUpGuards(s: Sys, t: nat)
    requires NoInversion(s) && Woken(s, t)
    ensures NoInversion(GiveUp(s, t))
  {
    assert ThreadOk(s, t);
    var m := s.ts[t].pending.value;
    assert MutexOk(s, m);
    RefreshGuards(s, m);
    var s1 := Refreshed(s, m);
    var owner := s.ms[m].owner;
    if owner.Some? && s.ts[owner.value].curr == s.ts[t].curr {
      RecheckGuards(s1, owner.value);
      UnpendGuards(Rechecked(s1, owner.value), t);
    } else {
      UnpendGuards(s1, t);
    }
  }

  lemma CeilingGuards(s: Sys, m: nat, p: nat)
    requires NoInversion(s) && m < |s.ms|
    ensures NoInversion(SetCeiling(s, m, p))
  {
    if p < PRIORITY_MAX {
      CeilingWf(s, m, p);
      var s1 := s.(ms := s.ms[m := s.ms[m].(ceiling := p)]);
      forall k | 0 <= k < |s1.ms| ensures MutexOk(s1, k) && Guarded(s1, k) {
        assert MutexOk(s1, k) && MutexOk(s, k) && Guarded(s, k);
      }
      assert MutexOk(s, m);
      if s.ms[m].owner.Some? { RecheckGuards(s1, s.ms[m].owner.value); }
    }
  }

  lemma SleepGuards(s: Sys, t: nat, asleep: bool)
    requires NoInversion(s) && t < |s.ts| && s.ts[t].pending.None?
    ensures NoInversion(Sleep(s, t, asleep))
  {
    var r := Sleep(s, t, asleep);
    forall k | 0 <= k < |r.ms| ensures MutexOk(r, k) && Guarded(r, k) {
      assert MutexOk(r, k) && MutexOk(s, k) && Guarded(s, k);
    }
  }
}
