// The scheduler's code: methods that change the kernel's state in place, each
// equal to the corresponding function of Scheduler and SchedulerRuns.

module SchedulerKernel {
  import opened Common
  import opened Bits
  import opened ReadyMap
  import opened Scheduler
  import Runs = SchedulerRuns
  import Fates = SchedulerFates

  ghost function Occupied(queues: seq<seq<nat>>): set<nat> {
    set p | 0 <= p < |queues| && queues[p] != []
  }

  lemma HighestIsHighest(queues: seq<seq<nat>>)
    ensures var h := Highest(queues, 0);
      if h < |queues| then IsHighest(Occupied(queues), h) else Occupied(queues) == {}
  {}

  class Kernel {
    var ts: seq<Tcb>
    var queues: seq<seq<nat>>   // rt_thread_priority_table
    var group: nat              // rt_thread_ready_priority_group
    var current: nat            // rt_current_thread
    var nest: nat               // rt_scheduler_lock_nest
    var pend: bool              // the critical switch flag

    ghost function State(): State
      reads this
    {
      Scheduler.State(ts, queues, current, nest, pend)
    }

    // The bitmap has a bit for every non-empty queue, and no other.
    ghost predicate Mapped()
      reads this
    {
      |queues| == PRIORITY_MAX && Shows(group, Occupied(queues))
    }

    ghost predicate Valid()
      reads this
    {
      Mapped() && Wf(State())
    }

    // rt_sched_insert_thread
    method InsertThread(t: nat)
      requires Mapped() && t < |ts| && ts[t].prio < PRIORITY_MAX && ts[t].mask == Pow2(ts[t].prio)
      modifies this
      ensures Mapped() && State() == Insert(old(State()), t)
    {
      if t == current {
        ts := ts[t := ts[t].(stat := Running)];
        return;
      }
      MarkShows(group, Occupied(queues), ts[t].prio);
      ts := ts[t := ts[t].(stat := Ready)];
      var p := ts[t].prio;
      if ts[t].yielded {
        queues := queues[p := queues[p] + [t]];
      } else {
        queues := queues[p := [t] + queues[p]];
      }
      group := Or(group, ts[t].mask);
      assert Occupied(queues) == Occupied(old(queues)) + {p};
    }

    // rt_sched_remove_thread
    method RemoveThread(t: nat)
      requires Mapped() && t < |ts| && ts[t].prio < PRIORITY_MAX && ts[t].mask == Pow2(ts[t].prio)
      modifies `queues, `group
      ensures Mapped() && queues == Dequeue(old(queues), t, ts[t])
    {
      var p := ts[t].prio;
      ClearShows(group, Occupied(queues), p);
      queues := queues[p := Remove(queues[p], t)];
      if queues[p] == [] {
        group := AndNot(group, ts[t].mask);
        assert Occupied(queues) == Occupied(old(queues)) - {p};
      } else {
        assert Occupied(queues) == Occupied(old(queues));
      }
    }

    // _scheduler_get_highest_priority_thread
    method HighestPriorityThread() returns (thread: nat, prio: nat)
      requires Mapped() && group != 0
      ensures prio == Highest(queues, 0) < PRIORITY_MAX && thread == queues[prio][0]
    {
      FfsIsHighest(group, Occupied(queues));
      HighestIsHighest(queues);
      prio := Ffs(group) - 1;
      thread := queues[prio][0];
    }

    // The switch inside rt_schedule.
    method SwitchTo(to: nat, needInsertFrom: bool, ghost h: nat)
      requires Valid() && h < PRIORITY_MAX && queues[h] != [] && to == queues[h][0]
      requires needInsertFrom <==> ts[current].stat == Running
      modifies this
      ensures h < |old(queues)| && |old(ts)| == |ts| && |queues| == PRIORITY_MAX
      ensures to < |ts| && old(ts)[to].prio == h && old(current) < |ts| && old(ts)[old(current)].prio < PRIORITY_MAX
      ensures Mapped() && State() == Switch(old(State()), h)
    {
      SwitchThread(State(), h, current);
      SwitchThread(State(), h, to);
      assert ThreadOk(State(), current) && ThreadOk(State(), to);
      var from := current;
      current := to;
      if needInsertFrom {
        InsertThread(from);
      }
      if ts[from].yielded {
        ts := ts[from := ts[from].(yielded := false)];
      }
      RemoveThread(to);
      ts := ts[to := ts[to].(stat := Running)];
    }

    // rt_schedule
    method Reschedule()
      requires Valid()
      modifies this
      ensures Valid() && State() == Schedule(old(State()))
    {
      ScheduleWf(State());
      if nest == 0 {
        FfsIsHighest(group, Occupied(queues));
        HighestIsHighest(queues);
        if group != 0 {
          var needInsertFrom := false;
          var to, highest := HighestPriorityThread();
          var c := ts[current];
          if c.stat == Running {
            if c.prio < highest {
              to := current;
            } else if c.prio == highest && !c.yielded {
              to := current;
            } else {
              needInsertFrom := true;
            }
          }
          ReadyIsQueued(State(), current, highest);
          if to != current {
            SwitchTo(to, needInsertFrom, highest);
          } else {
            assert ThreadOk(State(), current);
            ReadyIsQueued(State(), current, c.prio);
            RemoveThread(current);
            ts := ts[current := ts[current].(stat := Running)];
            assert ts == old(ts) && queues == old(queues);
          }
        }
      } else {
        pend := true;
      }
    }

    // rt_enter_critical
    method EnterCritical() returns (level: nat)
      requires Valid()
      modifies `nest
      ensures Valid() && State() == Runs.Enter(old(State())) && level == nest
    {
      LockWf(State(), nest + 1, pend);
      nest := nest + 1;
      level := nest;
    }

    // rt_exit_critical
    method ExitCritical()
      requires Valid()
      modifies this
      ensures Valid() && State() == Runs.Leave(old(State()))
    {
      LockWf(State(), 0, false);
      LockWf(State(), 0, pend);
      if nest > 1 { LockWf(State(), nest - 1, pend); }
      var n: int := nest - 1;
      if n <= 0 {
        nest := 0;
        if pend {
          pend := false;
          Reschedule();
        }
      } else {
        nest := n;
      }
    }

    // rt_sched_thread_yield on the running thread, and the reschedule after it
    method YieldThread()
      requires Valid()
      modifies this
      ensures Valid() && State() == Runs.Yield(old(State()))
    {
      assert ThreadOk(State(), current);
      UnqueuedWf(State(), current, Runs.GiveSlice(State()).ts[current]);
      var c := ts[current];
      ts := ts[current := c.(tick := c.initTick, yielded := true)];
      Reschedule();
    }

    // rt_sched_tick_increase
    method TickIncrease(tick: nat)
      requires Valid()
      modifies this
      ensures Valid() && State() == Runs.Tick(old(State()), tick)
    {
      var c := ts[current];
      assert ThreadOk(State(), current);
      if c.tick > tick {
        UnqueuedWf(State(), current, c.(tick := c.tick - tick));
        ts := ts[current := c.(tick := c.tick - tick)];
      } else {
        UnqueuedWf(State(), current, c.(tick := 0));
        ts := ts[current := c.(tick := 0)];
        assert Runs.GiveSlice(State()) == Runs.GiveSlice(old(State()));
      }
      if ts[current].tick == 0 {
        YieldThread();
      }
    }

    // rt_sched_thread_ready
    method ThreadReady(t: nat) returns (ok: bool)
      requires Valid() && t < |ts|
      modifies this
      ensures ok <==> old(ts)[t].stat == Suspended
      ensures Valid() && State() == Runs.MakeReady(old(State()), t)
    {
      if ts[t].stat != Suspended {
        return false;
      }
      InsertWf(State(), t);
      assert ThreadOk(State(), t);
      InsertThread(t);
      ok := true;
    }

    // rt_thread_resume
    method ThreadResume(t: nat) returns (ok: bool)
      requires Valid() && t < |ts|
      modifies this
      ensures Valid() && State() == Runs.Resume(old(State()), t)
      ensures ok <==> old(ts)[t].stat == Suspended
      ensures ok ==> t < |ts| && ts[t].stat in {Ready, Running}
    {
      assert ThreadOk(State(), t);
      Fates.ResumeFate(State(), t, t);
      ok := ThreadReady(t);
      if ok {
        Reschedule();
      }
    }

    // rt_thread_suspend_to_list: the scheduler's part
    method ThreadSuspend(t: nat)
      requires Valid() && t < |ts|
      modifies this
      ensures Valid() && State() == Runs.Suspend(old(State()), t)
    {
      Runs.SuspendWf(State(), t);
      assert ThreadOk(State(), t);
      if ts[t].stat != Ready && ts[t].stat != Running {
        return;
      }
      ReadyIsQueued(State(), t, ts[t].prio);
      RemoveThread(t);
      ts := ts[t := ts[t].(stat := Suspended)];
      assert old(ts)[t].stat == Running ==> queues == old(queues);
    }

    // rt_thread_startup
    method ThreadStartup(t: nat)
      requires Valid() && t < |ts| && ts[t].stat == Init
      modifies this
      ensures Valid() && State() == Runs.Startup(old(State()), t)
      ensures t < |ts| && ts[t].stat in {Ready, Running}
    {
      assert ThreadOk(State(), t);
      Fates.StartupFate(State(), t, t);
      ghost var c := ts[t].(mask := Pow2(ts[t].prio), stat := Suspended);
      UnqueuedWf(State(), t, c);
      ts := ts[t := ts[t].(mask := Pow2(ts[t].prio))];
      ts := ts[t := ts[t].(stat := Suspended)];
      assert ts == old(ts)[t := c];
      var ok := ThreadResume(t);
    }

    // rt_thread_close
    method ThreadClose(t: nat)
      requires Valid() && t < |ts|
      modifies this
      ensures Valid() && State() == Runs.Close(old(State()), t)
    {
      Runs.CloseWf(State(), t);
      assert ThreadOk(State(), t);
      if ts[t].stat != Closed {
        if ts[t].stat != Init {
          ReadyIsQueued(State(), t, ts[t].prio);
          RemoveThread(t);
        }
        ts := ts[t := ts[t].(stat := Closed, yielded := false)];
        assert old(ts)[t].stat != Ready ==> queues == old(queues);
      }
    }

    // _rt_sched_update_priority
    method UpdatePriority(t: nat, priority: nat, reset: bool)
      requires Valid() && t < |ts| && priority < PRIORITY_MAX
      modifies this
      ensures Valid() && State() == Runs.SetPriority(old(State()), t, priority, reset)
    {
      Runs.SetPriorityWf(State(), t, priority, reset);
      assert ThreadOk(State(), t);
      if ts[t].stat == Ready {
        RemoveThread(t);
        if reset {
          ts := ts[t := ts[t].(init := priority)];
        }
        ts := ts[t := ts[t].(prio := priority, mask := Pow2(priority), stat := Init, yielded := false)];
        InsertThread(t);
        assert State() == Runs.SetPriority(old(State()), t, priority, reset);
      } else {
        if reset {
          ts := ts[t := ts[t].(init := priority)];
        }
        ts := ts[t := ts[t].(prio := priority, mask := Pow2(priority))];
        assert State() == Runs.SetPriority(old(State()), t, priority, reset);
      }
    }
  }
}
