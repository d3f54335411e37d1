// The mutex code of rt-thread/src/ipc.c as it runs, on a table of threads and a
// table of mutexes that its functions update in place. Each function is proved
// to be the step of MutexSteps it stands for.

module MutexKernel {
  import opened Common
  import opened MutexModel
  import Steps = MutexSteps
  import opened MutexSafety
  import opened MutexControl
  import Holds = MutexHolds

  datatype TakeOutcome = Returned(e: Err) | Asleep

  class Kernel {
    var ts: seq<Thread>
    var ms: seq<Mutex>

    ghost function State(): Sys
      reads this
    {
      Sys(ts, ms)
    }

    // rt_mutex_init for every mutex, rt_sched_thread_init_priv for every thread
    constructor (prios: seq<nat>, mutexes: nat)
      ensures |ts| == |prios| && |ms| == mutexes
      ensures forall i :: 0 <= i < |ts| ==> ts[i] == Thread(prios[i], prios[i], false, None, [], EOK)
      ensures forall i :: 0 <= i < |ms| ==> ms[i] == Mutex(None, NO_PRIORITY, 0, NO_PRIORITY, [])
    {
      ts := seq(|prios|, i requires 0 <= i < |prios| => Thread(prios[i], prios[i], false, None, [], EOK));
      ms := seq(mutexes, i => Mutex(None, NO_PRIORITY, 0, NO_PRIORITY, []));
    }

    // rt_susp_list_enqueue, RT_IPC_FLAG_PRIO
    method Enqueue(ws: seq<nat>, t: nat) returns (r: seq<nat>)
      requires t < |ts| && Below(ws, |ts|)
      ensures r == Enqueued(ts, ws, t)
    {
      var n := 0;
      while n < |ws| && !(ts[t].curr < ts[ws[n]].curr)
        invariant n <= |ws|
        invariant forall i :: 0 <= i < n ==> ts[ws[i]].curr <= ts[t].curr
      {
        n := n + 1;
      }
      EnqueuedAt(ts, ws, t, n);
      r := ws[..n] + [t] + ws[n..];
    }

    // _mutex_update_priority
    method MutexUpdatePriority(m: nat)
      requires m < |ms| && Below(ms[m].waiters, |ts|)
      modifies this`ms
      ensures State() == Steps.Advertised(old(State()), m, HeadPrio(ts, old(ms[m].waiters)))
    {
      if ms[m].waiters != [] {
        ms := ms[m := ms[m].(prio := ts[ms[m].waiters[0]].curr)];
      } else {
        ms := ms[m := ms[m].(prio := NO_PRIORITY)];
      }
    }

    // _thread_get_mutex_priority
    method ThreadMutexPriority(t: nat) returns (priority: nat)
      requires t < |ts| && Below(ts[t].taken, |ms|)
      ensures priority == Inherited(ms, ts[t].taken, ts[t].init)
    {
      priority := ts[t].init;
      var taken := ts[t].taken;
      var node := 0;
      while node < |taken|
        invariant node <= |taken|
        invariant priority <= ts[t].init
        invariant forall i :: 0 <= i < node ==> priority <= MutexPrio(ms[taken[i]])
        invariant priority == ts[t].init || exists i :: 0 <= i < node && priority == MutexPrio(ms[taken[i]])
      {
        var mu := ms[taken[node]];
        var p := if mu.prio < mu.ceiling then mu.prio else mu.ceiling;
        if priority > p {
          priority := p;
        }
        node := node + 1;
      }
      InheritedIs(ms, taken, ts[t].init, priority);
    }

    // rt_sched_thread_change_priority
    method ChangePriority(t: nat, p: nat)
      requires t < |ts| && p < PRIORITY_MAX
      modifies this`ts
      ensures State() == SetCurr(old(State()), t, p)
    {
      ts := ts[t := ts[t].(curr := p)];
    }

    // One turn of the loop below, up to the owner: re-sort the thread and
    // refresh the mutex it is parked on.
    method Requeue(thread: nat) returns (owner: nat)
      requires Wf(State()) && Chained(State(), thread)
      modifies this`ms
      ensures State() == Requeued(old(State()), thread)
      ensures owner == old(ChainOwner(State(), thread))
    {
      ghost var s := State();
      RequeueWf(s, thread);
      assert ChainOwner(s, thread) == ms[ts[thread].pending.value].owner.value;
      var m := ts[thread].pending.value;
      var rest := Remove(ms[m].waiters, thread);
      RemoveBelow(ms[m].waiters, thread, |ts|);
      ms := ms[m := ms[m].(waiters := rest)];
      var ws := Enqueue(ms[m].waiters, thread);
      ms := ms[m := ms[m].(waiters := ws)];
      MutexUpdatePriority(m);
      owner := ms[m].owner.value;
    }

    // _thread_update_priority: terminates on every wait-for graph.
    method ThreadUpdatePriority(t: nat, p: nat)
      requires t < |ts| && p < PRIORITY_MAX && Wf(State())
      modifies this
      ensures State() == Steps.UpdatePriority(old(State()), t, p)
    {
      SetCurrWf(State(), t, p);
      ChangePriority(t, p);
      ghost var s0 := State();
      ghost var untouched := Tids(|ts|) - {t};
      var thread: nat := t;
      var ok := true;
      while ok && ts[thread].suspended && ts[thread].pending.Some?
        invariant thread < |ts| && Wf(s0) && Descending(s0, t, Tids(|s0.ts|) - {t})
        invariant Wf(State()) && (ok ==> Descending(State(), thread, untouched))
        invariant Propagate(s0, t, Tids(|s0.ts|) - {t}) ==
                    if ok then Propagate(State(), thread, untouched) else State()
        decreases ok, untouched, SumCurr(ts)
      {
        ghost var s := State();
        ChainDescends(s, thread, untouched);
        var owner := Requeue(thread);
        assert ThreadOk(State(), owner);
        var mutexPriority := ThreadMutexPriority(owner);
        if mutexPriority != ts[owner].curr {
          ChangePriority(owner, mutexPriority);
          assert State() == ChainNext(s, thread);
          thread := owner;
          untouched := untouched - {owner};
        } else {
          assert State() == ChainNext(s, thread);
          ok := false;
        }
      }
    }

    // _check_and_update_prio
    method CheckAndUpdatePrio(t: nat, m: nat) returns (resched: bool)
      requires t < |ts| && m < |ms| && Below(ts[t].taken, |ms|) && ts[t].init < PRIORITY_MAX
      modifies this`ts
      ensures resched <==> old(ms[m].ceiling != NO_PRIORITY || ts[t].curr == ms[m].prio)
      ensures State() ==
        if resched then old(SetCurr(State(), t, Inherited(ms, ts[t].taken, ts[t].init))) else old(State())
    {
      resched := false;
      if ms[m].ceiling != NO_PRIORITY || ts[t].curr == ms[m].prio {
        var priority := ThreadMutexPriority(t);
        ChangePriority(t, priority);
        resched := true;
      }
    }

    // The branch of _rt_mutex_take for a mutex without an owner.
    method TakeFree(t: nat, m: nat)
      requires t < |ts| && m < |ms| && !ts[t].suspended && ts[t].curr < PRIORITY_MAX
      modifies this
      ensures State() == Steps.Acquired(old(State()), t, m)
    {
      ms := ms[m := ms[m].(owner := Some(t), prio := NO_PRIORITY, hold := 1)];
      if ms[m].ceiling != NO_PRIORITY {
        if ms[m].ceiling < ts[t].curr {
          // _thread_update_priority on the running thread: nothing behind it
          ChangePriority(t, ms[m].ceiling);
        }
      }
      ts := ts[t := ts[t].(taken := [m] + ts[t].taken)];
    }

    // The branch that suspends the caller.
    method Park(t: nat, m: nat)
      requires Wf(State()) && Steps.Running(State(), t) && m < |ms|
      requires ms[m].owner.Some? && ms[m].owner != Some(t)
      modifies this
      ensures State() == Steps.Blocked(old(State()), t, m)
    {
      Steps.ParkedWf(State(), t, m);
      assert ThreadOk(State(), t);
      // rt_thread_suspend_to_list
      ts := ts[t := ts[t].(suspended := true)];
      var ws := Enqueue(ms[m].waiters, t);
      EnqueuedFrame(old(ts), ts, ms[m].waiters, t);
      ms := ms[m := ms[m].(waiters := ws)];
      ts := ts[t := ts[t].(pending := Some(m))];
      assert State() == Steps.Parked(old(State()), t, m);
      var priority := ts[t].curr;
      if priority < ms[m].prio {
        Steps.AdvertisedWf(State(), m, priority);
        ms := ms[m := ms[m].(prio := priority)];
        if ms[m].prio < ts[ms[m].owner.value].curr {
          ThreadUpdatePriority(ms[m].owner.value, priority);
        }
      }
    }

    // _rt_mutex_take. A caller that has to wait is left Asleep on the mutex; it
    // goes on in TakeResumed.
    method Take(t: nat, m: nat, timeout: int) returns (r: TakeOutcome)
      requires Wf(State()) && Steps.Running(State(), t) && m < |ms|
      modifies this
      ensures State() == Steps.Take(old(State()), t, m, timeout != 0)
      ensures var mu := old(ms[m]);
        r == if mu.owner == Some(t) then Returned(if mu.hold < HOLD_MAX then EOK else EFULL)
             else if mu.owner == None then Returned(EOK)
             else if timeout == 0 then Returned(ETIMEOUT) else Asleep
      ensures old(ms[m].owner) == Some(t) ==>
        ms == old(ms[m := ms[m].(hold := if ms[m].hold < HOLD_MAX then ms[m].hold + 1 else HOLD_MAX)])
      ensures r == Asleep ==>
        t < |ts| && m < |ms| && ts[t].suspended && ts[t].pending == Some(m) && t in ms[m].waiters
      ensures old(NoInversion(State())) ==> NoInversion(State())
    {
      assert ThreadOk(State(), t) && MutexOk(State(), m);
      ghost var s := State();
      if NoInversion(State()) { TakeGuards(State(), t, m, timeout != 0); }
      Steps.SetErrorWf(State(), t, EOK);
      ts := ts[t := ts[t].(error := EOK)];
      if ms[m].owner == Some(t) {
        if ms[m].hold < HOLD_MAX {
          ms := ms[m := ms[m].(hold := ms[m].hold + 1)];
        } else {
          return Returned(EFULL);
        }
      } else if ms[m].owner == None {
        TakeFree(t, m);
      } else if timeout == 0 {
        ts := ts[t := ts[t].(error := ETIMEOUT)];
        return Returned(ETIMEOUT);
      } else {
        Park(t, m);
        Holds.TakeContended(s, t, m, true);
        return Asleep;
      }
      return Returned(EOK);
    }

    // The tail of _rt_mutex_take, when the sleeper runs again.
    method TakeResumed(t: nat, m: nat) returns (e: Err)
      requires Wf(State()) && t < |ts| && m < |ms| && !ts[t].suspended
      requires ms[m].owner == Some(t) || ts[t].pending == Some(m)
      modifies this
      ensures old(ms[m].owner) == Some(t) ==> State() == old(State()) && e == EOK
      ensures old(ms[m].owner) != Some(t) ==>
        State() == Steps.GiveUp(old(State()), t) && e == (if old(ts[t].error) == EOK then EINTR else old(ts[t].error))
      ensures old(NoInversion(State())) ==> NoInversion(State())
    {
      assert ThreadOk(State(), t) && MutexOk(State(), m);
      if ms[m].owner == Some(t) {
        return EOK;
      }
      if NoInversion(State()) { GiveUpGuards(State(), t); }
      e := ts[t].error;
      if e == EOK {
        e := EINTR;
      }
      var needUpdate := ms[m].owner.Some? && ts[ms[m].owner.value].curr == ts[t].curr;
      MutexUpdatePriority(m);
      assert State() == Steps.Refreshed(old(State()), m);
      if needUpdate {
        var o := ms[m].owner.value;
        assert ThreadOk(State(), o);
        var priority := ThreadMutexPriority(o);
        if priority != ts[o].curr {
          ThreadUpdatePriority(o, priority);
        }
      }
      ts := ts[t := ts[t].(pending := None)];
    }

    // rt_sched_thread_ready: refuses a thread that is not suspended.
    method ThreadReady(t: nat) returns (ok: bool)
      requires t < |ts|
      modifies this`ts
      ensures ok == old(ts[t].suspended)
      ensures ts == old(ts)[t := old(ts[t]).(suspended := false)]
    {
      ok := ts[t].suspended;
      ts := ts[t := ts[t].(suspended := false)];
    }

    // rt_mutex_release, the hold count having reached 0: wake the first waiter
    // that can still be woken and hand the mutex to it, or free the mutex.
    method HandOver(m: nat)
      requires m < |ms| && ms[m].hold == 0 && Below(ms[m].waiters, |ts|) && NoDup(ms[m].waiters)
      requires forall w :: w in ms[m].waiters ==> ts[w].suspended
      modifies this
      ensures State() == Steps.Passed(old(State()), m)
    {
      ghost var s1 := State();
      var next: Option<nat> := None;
      while next.None? && ms[m].waiters != []
        invariant |ms| == |s1.ms|
        invariant next.None? ==> State() == s1
        invariant next.Some? ==>
          && s1.ms[m].waiters != [] && next.value == s1.ms[m].waiters[0]
          && ts == s1.ts[next.value := s1.ts[next.value].(suspended := false)]
          && ms == s1.ms[m := s1.ms[m].(waiters := s1.ms[m].waiters[1..])]
        decreases |ms[m].waiters|
      {
        var w := ms[m].waiters[0];
        assert w in s1.ms[m].waiters;
        ms := ms[m := ms[m].(waiters := ms[m].waiters[1..])];
        var ok := ThreadReady(w);
        if ok {
          next := Some(w);
        }
      }
      if next.Some? {
        var w := next.value;
        ms := ms[m := ms[m].(owner := Some(w), hold := 1)];
        ts := ts[w := ts[w].(taken := [m] + ts[w].taken)];
        ts := ts[w := ts[w].(pending := None)];
        MutexUpdatePriority(m);
        assert ts == Steps.Passed(s1, m).ts;
      } else {
        ms := ms[m := ms[m].(owner := None, prio := NO_PRIORITY)];
      }
    }

    // rt_mutex_release, the hold count having reached 0: off the taken list,
    // and the releaser's priority looked at again.
    method LetGo(t: nat, m: nat) returns (resched: bool)
      requires t < |ts| && m < |ms| && Below(ts[t].taken, |ms|) && ts[t].init < PRIORITY_MAX
      modifies this`ts
      ensures State() == LettingGo(old(State()), t, m)
    {
      RemoveBelow(ts[t].taken, m, |ms|);
      ts := ts[t := ts[t].(taken := Remove(ts[t].taken, m))];
      resched := CheckAndUpdatePrio(t, m);
    }

    // rt_mutex_release
    method Release(t: nat, m: nat) returns (e: Err)
      requires Wf(State()) && Steps.Running(State(), t) && m < |ms|
      modifies this
      ensures State() == Steps.Release(old(State()), t, m)
      ensures e == if old(ms[m].owner) == Some(t) then EOK else ERROR
      ensures old(NoInversion(State())) ==> NoInversion(State())
    {
      assert MutexOk(State(), m);
      if NoInversion(State()) { ReleaseGuards(State(), t, m); }
      if ms[m].owner != Some(t) {
        ts := ts[t := ts[t].(error := ERROR)];
        return ERROR;
      }
      ms := ms[m := ms[m].(hold := ms[m].hold - 1)];
      if ms[m].hold == 0 {
        LettingGoDrops(old(State()), t, m);
        var needSchedule := LetGo(t, m);
        HandOver(m);
        UnheldPassed(Steps.Dropped(old(State()), t, m), m);
      }
      return EOK;
    }

    // rt_mutex_setprioceiling
    method SetPrioCeiling(m: nat, priority: nat) returns (previous: nat)
      requires Wf(State()) && m < |ms|
      modifies this
      ensures State() == Steps.SetCeiling(old(State()), m, priority)
      ensures previous == if priority < PRIORITY_MAX then old(ms[m].ceiling) else NO_PRIORITY
      ensures old(NoInversion(State())) ==> NoInversion(State())
    {
      if NoInversion(State()) { CeilingGuards(State(), m, priority); }
      previous := NO_PRIORITY;
      if priority < PRIORITY_MAX {
        assert MutexOk(State(), m);
        Steps.CeilingWf(State(), m, priority);
        previous := ms[m].ceiling;
        ms := ms[m := ms[m].(ceiling := priority)];
        if ms[m].owner.Some? {
          var o := ms[m].owner.value;
          assert ThreadOk(State(), o);
          var highest := ThreadMutexPriority(o);
          if highest != ts[o].curr {
            ThreadUpdatePriority(o, highest);
          }
        }
      }
    }

    // rt_thread_control with RT_THREAD_CTRL_CHANGE_PRIORITY or _RESET_PRIORITY
    method ThreadControl(t: nat, p: nat, reset: bool)
      requires Wf(State()) && t < |ts| && p < PRIORITY_MAX
      modifies this`ts
      ensures State() == Assigned(old(State()), t, p, reset)
      ensures old(NoInversion(State())) ==> (NoInversion(State()) <==> old(Bears(State(), t, p)))
    {
      if NoInversion(State()) { AssignedGuards(State(), t, p, reset); }
      if reset {
        ts := ts[t := ts[t].(init := p)];
      }
      ChangePriority(t, p);
    }

    // _thread_timeout
    method ThreadTimeout(t: nat)
      requires Wf(State()) && Chained(State(), t)
      modifies this
      ensures State() == Steps.Wake(old(State()), t, ETIMEOUT)
      ensures old(NoInversion(State())) ==> NoInversion(State())
    {
      if NoInversion(State()) { WakeGuards(State(), t, ETIMEOUT); }
      Steps.WakeWf(State(), t, ETIMEOUT);
      var m := ts[t].pending.value;
      ts := ts[t := ts[t].(error := ETIMEOUT)];
      ms := ms[m := ms[m].(waiters := Remove(ms[m].waiters, t))];
      ts := ts[t := ts[t].(suspended := false)];
    }
  }

  function Unheld(s: Sys, m: nat): Sys
    requires m < |s.ms|
  {
    s.(ms := s.ms[m := s.ms[m].(hold := 0)])
  }

  ghost function LettingGo(s: Sys, t: nat, m: nat): Sys
    requires t < |s.ts| && m < |s.ms| && Below(s.ts[t].taken, |s.ms|)
  {
    RemoveBelow(s.ts[t].taken, m, |s.ms|);
    var rest := Remove(s.ts[t].taken, m);
    var p := if s.ms[m].ceiling != NO_PRIORITY || s.ts[t].curr == s.ms[m].prio
             then Inherited(s.ms, rest, s.ts[t].init) else s.ts[t].curr;
    s.(ts := s.ts[t := s.ts[t].(taken := rest, curr := p)])
  }

  lemma LettingGoDrops(s: Sys, t: nat, m: nat)
    requires Wf(s) && t < |s.ts| && m < |s.ms|
    ensures ThreadOk(s, t)
    ensures LettingGo(Unheld(s, m), t, m) == Unheld(Steps.Dropped(s, t, m), m)
  {
    assert ThreadOk(s, t);
    RemoveBelow(s.ts[t].taken, m, |s.ms|);
    InheritedHold(s.ms, m, 0, Remove(s.ts[t].taken, m), s.ts[t].init);
  }

  lemma UnheldPassed(s: Sys, m: nat)
    requires m < |s.ms| && Below(s.ms[m].waiters, |s.ts|)
    ensures Steps.Passed(Unheld(s, m), m) == Steps.Passed(s, m)
  {}

  // The place in the list depends on current priorities only.
  lemma {:induction false} EnqueuedFrame(ts: seq<Thread>, ts': seq<Thread>, ws: seq<nat>, t: nat)
    requires t < |ts| && |ts'| == |ts| && Below(ws, |ts|)
    requires forall u :: 0 <= u < |ts| ==> ts'[u].curr == ts[u].curr
    ensures Enqueued(ts', ws, t) == Enqueued(ts, ws, t)
  {
    if ws != [] {
      EnqueuedFrame(ts, ts', ws[1..], t);
    }
  }

  // The debt of a thread does not look at hold counts.
  lemma InheritedHold(ms: seq<Mutex>, m: nat, h: nat, taken: seq<nat>, init: nat)
    requires m < |ms| && Below(taken, |ms|)
    ensures Inherited(ms[m := ms[m].(hold := h)], taken, init) == Inherited(ms, taken, init)
  {
    InheritedFrame(ms, ms[m := ms[m].(hold := h)], taken, init);
  }
}
