// The priority scheduler (rt-thread/src/scheduler_up.c, scheduler_comm.c) as a
// transition system: what each call does to the threads, to the ready queues
// and to the running thread.

module Scheduler {
  import opened Common
  import opened Bits

  const PRIORITY_MAX: nat := 32

  datatype Stat = Init | Closed | Ready | Running | Suspended

  // The scheduling half of struct rt_thread. `yielded` is RT_THREAD_STAT_YIELD,
  // `mask` is number_mask.
  datatype Tcb = Tcb(init: nat, prio: nat, mask: nat, stat: Stat, yielded: bool, initTick: nat, tick: nat)

  // queues[p] is rt_thread_priority_table[p], from its front; `pend` is the
  // critical switch flag and `nest` rt_scheduler_lock_nest.
  datatype State = State(ts: seq<Tcb>, queues: seq<seq<nat>>, current: nat, nest: nat, pend: bool)

  // --- invariant -------------------------------------------------------------

  ghost predicate ThreadOk(s: State, t: nat)
    requires t < |s.ts| && |s.queues| == PRIORITY_MAX
  {
    var c := s.ts[t];
    && c.prio < PRIORITY_MAX
    && (c.stat in {Ready, Running, Suspended} ==> c.mask == Pow2(c.prio))
    && (c.stat == Ready ==> t in s.queues[c.prio])
    && (c.stat == Running ==> t == s.current)
    && (c.yielded ==> t == s.current)
  }

  ghost predicate Entry(s: State, p: nat, i: nat)
    requires p < |s.queues| && i < |s.queues[p]|
  {
    var t := s.queues[p][i];
    t < |s.ts| && s.ts[t].stat == Ready && s.ts[t].prio == p
  }

  ghost predicate QueueOk(s: State, p: nat)
    requires p < |s.queues|
  {
    NoDup(s.queues[p]) && forall i :: 0 <= i < |s.queues[p]| ==> Entry(s, p, i)
  }

  ghost predicate Wf(s: State) {
    && |s.queues| == PRIORITY_MAX && s.current < |s.ts|
    && s.ts[s.current].stat in {Running, Suspended, Closed}
    && (forall t :: 0 <= t < |s.ts| ==> ThreadOk(s, t))
    && (forall p :: 0 <= p < PRIORITY_MAX ==> QueueOk(s, p))
  }

  lemma QueuedIsReady(s: State, t: nat, p: nat)
    requires Wf(s) && p < PRIORITY_MAX && t in s.queues[p]
    ensures t < |s.ts| && s.ts[t].stat == Ready && s.ts[t].prio == p
  {
    assert QueueOk(s, p);
    var i :| 0 <= i < |s.queues[p]| && s.queues[p][i] == t;
    assert Entry(s, p, i);
  }

  // READY is being in the queue of one's priority.
  lemma ReadyIsQueued(s: State, t: nat, p: nat)
    requires Wf(s) && t < |s.ts| && p < PRIORITY_MAX
    ensures t in s.queues[p] <==> s.ts[t].stat == Ready && s.ts[t].prio == p
  {
    assert ThreadOk(s, t);
    if t in s.queues[p] { QueuedIsReady(s, t, p); }
  }

  // --- the queues -------------------------------------------------------------

  // The highest priority with a ready thread, from p on.
  function Highest(queues: seq<seq<nat>>, p: nat): (h: nat)
    requires p <= |queues|
    ensures p <= h <= |queues|
    ensures h < |queues| ==> queues[h] != []
    ensures forall q :: p <= q < h ==> queues[q] == []
    decreases |queues| - p
  {
    if p == |queues| || queues[p] != [] then p else Highest(queues, p + 1)
  }

  // rt_sched_insert_thread on a thread that is not the current one: a thread
  // that used up its time slice goes to the back.
  function Queue(queues: seq<seq<nat>>, t: nat, c: Tcb): seq<seq<nat>>
    requires c.prio < |queues|
  {
    queues[c.prio := if c.yielded then queues[c.prio] + [t] else [t] + queues[c.prio]]
  }

  function Dequeue(queues: seq<seq<nat>>, t: nat, c: Tcb): seq<seq<nat>>
    requires c.prio < |queues|
  {
    queues[c.prio := Remove(queues[c.prio], t)]
  }

  function Insert(s: State, t: nat): State
    requires t < |s.ts| && s.ts[t].prio < |s.queues|
  {
    if t == s.current then s.(ts := s.ts[t := s.ts[t].(stat := Running)])
    else s.(ts := s.ts[t := s.ts[t].(stat := Ready)], queues := Queue(s.queues, t, s.ts[t]))
  }

  // --- rt_schedule -------------------------------------------------------------

  // Should the current thread go on, h being the highest ready priority?
  predicate KeepsRunning(c: Tcb, h: nat) {
    c.stat == Running && (c.prio < h || (c.prio == h && !c.yielded))
  }

  function Switch(s: State, h: nat): State
    requires |s.queues| == PRIORITY_MAX && h < PRIORITY_MAX && s.queues[h] != []
    requires s.current < |s.ts| && s.ts[s.current].prio < PRIORITY_MAX
    requires s.queues[h][0] < |s.ts| && s.ts[s.queues[h][0]].prio == h
  {
    var from := s.ts[s.current];
    var to := s.queues[h][0];
    var queues := if from.stat == Running then Queue(s.queues, s.current, from) else s.queues;
    var left := from.(stat := if from.stat == Running then Ready else from.stat, yielded := false);
    var ts := s.ts[s.current := left];
    s.(ts := ts[to := ts[to].(stat := Running)], queues := queues[h := Remove(queues[h], to)], current := to)
  }

  function Schedule(s: State): State
    requires Wf(s)
  {
    var h := Highest(s.queues, 0);
    if s.nest > 0 then s.(pend := true)
    else if h == PRIORITY_MAX || KeepsRunning(s.ts[s.current], h) then s
    else
      assert QueueOk(s, h) && Entry(s, h, 0);
      assert ThreadOk(s, s.current);
      Switch(s, h)
  }

  // --- what a scheduler call settles ---------------------------------------------

  // Nobody ready has a better claim on the CPU than the running thread.
  ghost predicate Settled(s: State) {
    s.current < |s.ts| && forall t :: 0 <= t < |s.ts| && s.ts[t].stat == Ready ==> Outranks(s, t)
  }

  ghost predicate Outranks(s: State, t: nat)
    requires s.current < |s.ts| && t < |s.ts|
  {
    var c := s.ts[s.current];
    c.stat == Running && (c.prio < s.ts[t].prio || (c.prio == s.ts[t].prio && !c.yielded))
  }

  lemma HighestReady(s: State, t: nat)
    requires Wf(s) && t < |s.ts| && s.ts[t].stat == Ready
    ensures Highest(s.queues, 0) <= s.ts[t].prio
  {
    assert ThreadOk(s, t);
  }

  // The two positions a switch changes, and the queue it rebuilds.
  lemma SwitchQueue(s: State, h: nat)
    requires Wf(s) && h < PRIORITY_MAX && s.queues[h] != []
    ensures var to := s.queues[h][0]; var from := s.ts[s.current];
      && to < |s.ts| && s.ts[to].prio == h && s.ts[to].stat == Ready && to != s.current && from.prio < PRIORITY_MAX
      && Switch(s, h).queues ==
        if from.stat != Running then s.queues[h := s.queues[h][1..]]
        else if from.prio != h then Queue(s.queues, s.current, from)[h := s.queues[h][1..]]
        else if from.yielded then s.queues[h := s.queues[h][1..] + [s.current]]
        else s.queues[h := [s.current] + s.queues[h][1..]]
  {
    assert QueueOk(s, h) && Entry(s, h, 0);
    assert ThreadOk(s, s.current) && ThreadOk(s, s.queues[h][0]);
    var from, q, to := s.ts[s.current], s.queues[h], s.queues[h][0];
    RemoveFirst(q[1..], to, s.current);
    assert q == [to] + q[1..];
    assert [s.current] + q == [s.current] + ([to] + q[1..]);
    assert q + [s.current] == [to] + (q[1..] + [s.current]);
  }

  lemma RemoveFirst(rest: seq<nat>, x: nat, y: nat)
    requires x != y
    ensures Remove([x] + rest, x) == rest
    ensures Remove([y] + ([x] + rest), x) == [y] + rest
  {
    assert ([y] + ([x] + rest))[1..] == [x] + rest;
    assert ([x] + rest)[1..] == rest;
  }

  lemma SwitchWf(s: State, h: nat)
    requires Wf(s) && h < PRIORITY_MAX && s.queues[h] != []
    ensures s.queues[h][0] < |s.ts| && s.ts[s.queues[h][0]].prio == h && s.ts[s.current].prio < PRIORITY_MAX
    ensures Wf(Switch(s, h))
  {
    SwitchThread(s, h, s.current);
    var r := Switch(s, h);
    SwitchThread(s, h, r.current);
    forall p | 0 <= p < PRIORITY_MAX ensures QueueOk(r, p) { SwitchEntries(s, h, p); }
    forall t | 0 <= t < |r.ts| ensures ThreadOk(r, t) { SwitchThreadOk(s, h, t); }
  }

  lemma SwitchThreadOk(s: State, h: nat, t: nat)
    requires Wf(s) && h < PRIORITY_MAX && s.queues[h] != [] && t < |s.ts|
    ensures s.queues[h][0] < |s.ts| && s.ts[s.queues[h][0]].prio == h && s.ts[s.current].prio < PRIORITY_MAX
    ensures |Switch(s, h).ts| == |s.ts| && |Switch(s, h).queues| == PRIORITY_MAX && ThreadOk(Switch(s, h), t)
  {
    assert ThreadOk(s, t);
    SwitchThread(s, h, t);
    SwitchQueueAt(s, h, s.ts[t].prio);
    if s.ts[t].stat == Ready && t != s.queues[h][0] {
      assert s.queues[h] == [s.queues[h][0]] + s.queues[h][1..];
    }
  }

  // Every queue afterwards is what was there, without the thread that now runs,
  // plus possibly the one that ran.
  lemma SwitchQueueAt(s: State, h: nat, p: nat)
    requires Wf(s) && h < PRIORITY_MAX && s.queues[h] != [] && p < PRIORITY_MAX
    ensures s.queues[h][0] < |s.ts| && s.ts[s.queues[h][0]].prio == h && s.ts[s.current].prio < PRIORITY_MAX
    ensures var r, from := Switch(s, h), s.current;
      var q := if p == h then s.queues[p][1..] else s.queues[p];
      if s.ts[from].stat == Running && s.ts[from].prio == p then
        r.queues[p] == q + [from] || r.queues[p] == [from] + q
      else r.queues[p] == q
  {
    SwitchQueue(s, h);
  }

  // A queue made of threads that belong there.
  ghost predicate Belongs(s: State, p: nat, t: nat) {
    t < |s.ts| && s.ts[t].stat == Ready && s.ts[t].prio == p
  }

  ghost predicate AllBelong(s: State, p: nat, q: seq<nat>) {
    forall i :: 0 <= i < |q| ==> Belongs(s, p, q[i])
  }

  lemma QueueMade(s: State, p: nat, q: seq<nat>, t: nat)
    requires p < |s.queues| && NoDup(q) && AllBelong(s, p, q)
    requires s.queues[p] == q || (t !in q && Belongs(s, p, t) && (s.queues[p] == q + [t] || s.queues[p] == [t] + q))
    ensures QueueOk(s, p)
  {
    forall i | 0 <= i < |s.queues[p]| ensures Entry(s, p, i) {
      if s.queues[p][i] != t {
        var j := if s.queues[p] == [t] + q then i - 1 else i;
        assert q[j] == s.queues[p][i] && Belongs(s, p, q[j]);
      } else if t in q {
        var j :| 0 <= j < |q| && q[j] == t;
        assert Belongs(s, p, q[j]);
      }
    }
  }

  // The threads after a switch.
  lemma SwitchThread(s: State, h: nat, t: nat)
    requires Wf(s) && h < PRIORITY_MAX && s.queues[h] != [] && t < |s.ts|
    ensures s.queues[h][0] < |s.ts| && s.ts[s.queues[h][0]].prio == h && s.ts[s.current].prio < PRIORITY_MAX
    ensures var r, to, c := Switch(s, h), s.queues[h][0], s.ts[t];
      && |r.ts| == |s.ts| && |r.queues| == PRIORITY_MAX && r.current == to && to != s.current && s.ts[to].stat == Ready
      && r.ts[t] ==
        if t == to then c.(stat := Running)
        else if t == s.current then c.(stat := if c.stat == Running then Ready else c.stat, yielded := false)
        else c
  {
    SwitchQueue(s, h);
  }

  lemma SwitchEntries(s: State, h: nat, p: nat)
    requires Wf(s) && h < PRIORITY_MAX && s.queues[h] != [] && p < PRIORITY_MAX
    ensures s.queues[h][0] < |s.ts| && s.ts[s.queues[h][0]].prio == h && s.ts[s.current].prio < PRIORITY_MAX
    ensures QueueOk(Switch(s, h), p)
  {
    SwitchQueueAt(s, h, p);
    SwitchThread(s, h, s.current);
    ReadyIsQueued(s, s.current, p);
    assert QueueOk(s, p);
    var r, q := Switch(s, h), if p == h then s.queues[p][1..] else s.queues[p];
    forall i | 0 <= i < |q| ensures Belongs(r, p, q[i]) {
      StillQueued(s, h, p, q[i]);
      SwitchThread(s, h, q[i]);
    }
    QueueMade(r, p, q, s.current);
  }

  lemma StillQueued(s: State, h: nat, p: nat, t: nat)
    requires Wf(s) && h < PRIORITY_MAX && s.queues[h] != [] && p < PRIORITY_MAX
    requires t in if p == h then s.queues[p][1..] else s.queues[p]
    ensures t < |s.ts| && s.ts[t].stat == Ready && s.ts[t].prio == p && t != s.queues[h][0]
  {
    assert QueueOk(s, p);
    var i :| 0 <= i < |s.queues[p]| && s.queues[p][i] == t && (p == h ==> i > 0);
    assert Entry(s, p, i);
    QueuedIsReady(s, s.queues[h][0], h);
  }

  lemma LockWf(s: State, nest: nat, pend: bool)
    requires Wf(s)
    ensures Wf(s.(nest := nest, pend := pend))
  {
    var r := s.(nest := nest, pend := pend);
    forall t | 0 <= t < |s.ts| ensures ThreadOk(r, t) { assert ThreadOk(s, t); }
    forall p | 0 <= p < PRIORITY_MAX ensures QueueOk(r, p) {
      assert QueueOk(s, p);
      forall i | 0 <= i < |s.queues[p]| ensures Entry(r, p, i) { assert Entry(s, p, i); }
    }
  }

  lemma ScheduleWf(s: State)
    requires Wf(s)
    ensures Wf(Schedule(s))
  {
    var h := Highest(s.queues, 0);
    if s.nest > 0 {
      LockWf(s, s.nest, true);
    } else if h < PRIORITY_MAX && !KeepsRunning(s.ts[s.current], h) {
      SwitchWf(s, h);
    }
  }

  // After rt_schedule with the lock open, nobody ready outranks the running thread.
  lemma ScheduleSettles(s: State)
    requires Wf(s) && s.nest == 0
    ensures Settled(Schedule(s))
  {
    var r, h := Schedule(s), Highest(s.queues, 0);
    if h == PRIORITY_MAX || KeepsRunning(s.ts[s.current], h) {
      forall t | 0 <= t < |s.ts| && s.ts[t].stat == Ready ensures Outranks(s, t) {
        HighestReady(s, t);
        assert ThreadOk(s, t);
      }
    } else {
      SwitchQueue(s, h);
      assert ThreadOk(s, s.queues[h][0]);
      forall t | 0 <= t < |r.ts| && r.ts[t].stat == Ready ensures Outranks(r, t) {
        if t != s.current { HighestReady(s, t); }
      }
    }
  }

  // --- changing one thread -------------------------------------------------------

  // A thread block that thread t may have without being queued.
  ghost predicate Unqueued(s: State, t: nat, c: Tcb)
    requires t < |s.ts|
  {
    && c.prio < PRIORITY_MAX && c.stat != Ready
    && (c.stat in {Running, Suspended} ==> c.mask == Pow2(c.prio))
    && (c.stat == Running ==> t == s.current) && (c.yielded ==> t == s.current)
    && (t == s.current ==> c.stat != Init)
  }

  lemma UnqueuedWf(s: State, t: nat, c: Tcb)
    requires Wf(s) && t < |s.ts| && s.ts[t].stat != Ready && Unqueued(s, t, c)
    ensures Wf(s.(ts := s.ts[t := c]))
  {
    var r := s.(ts := s.ts[t := c]);
    forall u | 0 <= u < |r.ts| ensures ThreadOk(r, u) { assert ThreadOk(s, u); }
    forall p | 0 <= p < PRIORITY_MAX ensures QueueOk(r, p) {
      assert QueueOk(s, p);
      forall i | 0 <= i < |r.queues[p]| ensures Entry(r, p, i) { assert Entry(s, p, i); }
    }
  }

  lemma DequeueWf(s: State, t: nat, c: Tcb)
    requires Wf(s) && t < |s.ts| && s.ts[t].stat == Ready && Unqueued(s, t, c)
    ensures s.ts[t].prio < |s.queues| && Wf(s.(ts := s.ts[t := c], queues := Dequeue(s.queues, t, s.ts[t])))
  {
    assert ThreadOk(s, t);
    var r := s.(ts := s.ts[t := c], queues := Dequeue(s.queues, t, s.ts[t]));
    forall u | 0 <= u < |r.ts| ensures ThreadOk(r, u) { assert ThreadOk(s, u); }
    forall p | 0 <= p < PRIORITY_MAX ensures QueueOk(r, p) {
      assert QueueOk(s, p);
      RemoveNoDup(s.queues[p], t);
      ReadyIsQueued(s, t, p);
      forall i | 0 <= i < |r.queues[p]| ensures Belongs(r, p, r.queues[p][i]) {
        QueuedIsReady(s, r.queues[p][i], p);
      }
      QueueMade(r, p, r.queues[p], t);
    }
  }

  lemma InsertWf(s: State, t: nat)
    requires Wf(s) && t < |s.ts| && s.ts[t].stat == Suspended
    ensures s.ts[t].prio < |s.queues| && Wf(Insert(s, t))
  {
    assert ThreadOk(s, t);
    if t == s.current {
      UnqueuedWf(s, t, s.ts[t].(stat := Running));
    } else {
      EnqueueWf(s, t, s.ts[t].(stat := Ready));
    }
  }

  lemma EnqueueWf(s: State, t: nat, c: Tcb)
    requires Wf(s) && t < |s.ts| && t != s.current && s.ts[t].stat != Ready && c.stat == Ready
    requires c.prio < PRIORITY_MAX && c.mask == Pow2(c.prio) && !c.yielded
    ensures Wf(s.(ts := s.ts[t := c], queues := Queue(s.queues, t, c)))
  {
    var r := s.(ts := s.ts[t := c], queues := Queue(s.queues, t, c));
    forall u | 0 <= u < |r.ts| ensures ThreadOk(r, u) { assert ThreadOk(s, u); }
    forall p | 0 <= p < PRIORITY_MAX ensures QueueOk(r, p) {
      assert QueueOk(s, p);
      ReadyIsQueued(s, t, p);
      forall i | 0 <= i < |s.queues[p]| ensures Belongs(r, p, s.queues[p][i]) {
        QueuedIsReady(s, s.queues[p][i], p);
      }
      QueueMade(r, p, s.queues[p], t);
    }
  }
}
