// The mutex with priority inheritance: rt-thread/src/ipc.c.
//
// Threads and mutexes are handles into two tables. A smaller number is a
// higher priority; 0xFF stands for "none".

module MutexModel {
  import opened Common

  const PRIORITY_MAX: nat := 32
  const NO_PRIORITY: nat := 0xFF
  const HOLD_MAX: nat := 0xFF

  datatype Err = EOK | EFULL | ETIMEOUT | EINTR | ERROR

  datatype Thread = Thread(
    init: nat,              // init_priority
    curr: nat,              // current_priority
    suspended: bool,        // stat has RT_THREAD_SUSPEND_MASK
    pending: Option<nat>,   // pending_object, when it is a mutex
    taken: seq<nat>,        // taken_object_list
    error: Err)

  datatype Mutex = Mutex(
    owner: Option<nat>,
    prio: nat,              // priority: the best of the waiting threads
    hold: nat,
    ceiling: nat,
    waiters: seq<nat>)      // parent.suspend_thread

  datatype Sys = Sys(ts: seq<Thread>, ms: seq<Mutex>)

  // ---------------------------------------------------------------------
  // Pieces of the specification
  // ---------------------------------------------------------------------

  function MutexPrio(mu: Mutex): (p: nat)
    ensures p <= mu.prio && p <= mu.ceiling && p in {mu.prio, mu.ceiling}
  {
    Min(mu.prio, mu.ceiling)
  }

  // Handles in a list are valid.
  ghost predicate Below(ws: seq<nat>, n: nat) {
    forall i :: 0 <= i < |ws| ==> ws[i] < n
  }

  lemma RemoveBelow(ws: seq<nat>, x: nat, n: nat)
    requires Below(ws, n)
    ensures Below(Remove(ws, x), n)
  {}

  // What a thread is owed: the best of its initial priority and of the
  // priorities (or ceilings) of the mutexes in `taken`.
  function Inherited(ms: seq<Mutex>, taken: seq<nat>, init: nat): (p: nat)
    requires Below(taken, |ms|)
    ensures p <= init
    ensures forall m :: m in taken ==> p <= MutexPrio(ms[m])
    ensures p == init || exists m :: m in taken && p == MutexPrio(ms[m])
  {
    if taken == [] then init
    else
      var last := taken[|taken| - 1];
      assert taken == taken[..|taken| - 1] + [last];
      assert last in taken;
      Min(Inherited(ms, taken[..|taken| - 1], init), MutexPrio(ms[last]))
  }

  // The debt is a minimum: only the set of candidates matters.
  lemma InheritedIs(ms: seq<Mutex>, taken: seq<nat>, init: nat, p: nat)
    requires Below(taken, |ms|)
    requires p <= init && forall k :: k in taken ==> p <= MutexPrio(ms[k])
    requires p == init || exists k :: k in taken && p == MutexPrio(ms[k])
    ensures Inherited(ms, taken, init) == p
  {}

  function HeadPrio(ts: seq<Thread>, ws: seq<nat>): nat
    requires Below(ws, |ts|)
  {
    if ws == [] then NO_PRIORITY else ts[ws[0]].curr
  }

  ghost predicate Sorted(ts: seq<Thread>, ws: seq<nat>)
    requires Below(ws, |ts|)
  {
    forall i, j :: 0 <= i < j < |ws| ==> ts[ws[i]].curr <= ts[ws[j]].curr
  }

  // In order, and nobody more urgent than p.
  ghost predicate ListOk(ts: seq<Thread>, ws: seq<nat>, p: nat)
    requires Below(ws, |ts|)
  {
    Sorted(ts, ws) && forall i :: 0 <= i < |ws| ==> p <= ts[ws[i]].curr
  }

  // Both look only at the members' current priorities.
  lemma SortedFrame(ts: seq<Thread>, ts': seq<Thread>, ws: seq<nat>)
    requires Below(ws, |ts|) && |ts'| == |ts| && Sorted(ts, ws)
    requires forall w :: w in ws ==> ts'[w].curr == ts[w].curr
    ensures Sorted(ts', ws)
  {}

  lemma ListOkFrame(ts: seq<Thread>, ts': seq<Thread>, ws: seq<nat>, p: nat)
    requires Below(ws, |ts|) && |ts'| == |ts| && ListOk(ts, ws, p)
    requires forall w :: w in ws ==> ts'[w].curr == ts[w].curr
    ensures ListOk(ts', ws, p)
  {}

  lemma ListOkCut(ts: seq<Thread>, ws: seq<nat>, i: nat, p: nat)
    requires i < |ws| && Below(ws, |ts|) && ListOk(ts, ws, p)
    ensures Below(ws[..i] + ws[i + 1..], |ts|) && ListOk(ts, ws[..i] + ws[i + 1..], p)
  {
    var r := ws[..i] + ws[i + 1..];
    forall j, k | 0 <= j <= k < |r| ensures ts[r[j]].curr <= ts[r[k]].curr && p <= ts[r[j]].curr {
      var j', k' := if j < i then j else j + 1, if k < i then k else k + 1;
      assert r[j] == ws[j'] && r[k] == ws[k'];
    }
  }

  lemma ListOkWithout(ts: seq<Thread>, ws: seq<nat>, t: nat, p: nat)
    requires Below(ws, |ts|) && ListOk(ts, ws, p)
    ensures Below(Remove(ws, t), |ts|) && ListOk(ts, Remove(ws, t), p)
  {
    if t in ws {
      var i := RemoveSplit(ws, t);
      ListOkCut(ts, ws, i, p);
    }
  }

  lemma ListOkRemove(ts: seq<Thread>, ts': seq<Thread>, ws: seq<nat>, t: nat, p: nat)
    requires Below(ws, |ts|) && |ts'| == |ts| && ListOk(ts, ws, p) && NoDup(ws)
    requires forall w :: w in ws && w != t ==> ts'[w].curr == ts[w].curr
    ensures Below(Remove(ws, t), |ts|) && ListOk(ts', Remove(ws, t), p)
  {
    ListOkWithout(ts, ws, t, p);
    RemoveNoDup(ws, t);
    ListOkFrame(ts, ts', Remove(ws, t), p);
  }

  // rt_susp_list_enqueue with RT_IPC_FLAG_PRIO: in front of the first thread
  // that is strictly less urgent.
  function Enqueued(ts: seq<Thread>, ws: seq<nat>, t: nat): (r: seq<nat>)
    requires t < |ts| && Below(ws, |ts|)
    ensures |r| == |ws| + 1 && Below(r, |ts|)
    ensures forall x :: x in r <==> x == t || x in ws
    ensures ts[r[0]].curr <= ts[t].curr
    ensures ws != [] ==> r[0] == t || r[0] == ws[0]
  {
    if ws == [] then [t]
    else if ts[t].curr < ts[ws[0]].curr then [t] + ws
    else [ws[0]] + Enqueued(ts, ws[1..], t)
  }

  // That place, said without recursion.
  lemma {:induction false} EnqueuedAt(ts: seq<Thread>, ws: seq<nat>, t: nat, n: nat)
    requires t < |ts| && Below(ws, |ts|) && n <= |ws|
    requires forall i :: 0 <= i < n ==> ts[ws[i]].curr <= ts[t].curr
    requires n < |ws| ==> ts[t].curr < ts[ws[n]].curr
    ensures Enqueued(ts, ws, t) == ws[..n] + [t] + ws[n..]
  {
    if n > 0 {
      EnqueuedAt(ts, ws[1..], t, n - 1);
      assert [ws[0]] + (ws[1..][..n - 1] + [t] + ws[1..][n - 1..]) == ws[..n] + [t] + ws[n..];
    } else {
      assert ws[..0] + [t] + ws[0..] == [t] + ws;
    }
  }

  lemma {:induction false} EnqueuedNoDup(ts: seq<Thread>, ws: seq<nat>, t: nat)
    requires t < |ts| && Below(ws, |ts|)
    requires NoDup(ws) && t !in ws
    ensures NoDup(Enqueued(ts, ws, t))
  {
    if ws != [] && ts[t].curr >= ts[ws[0]].curr {
      assert forall k :: 0 <= k < |ws[1..]| ==> ws[1..][k] == ws[k + 1];
      EnqueuedNoDup(ts, ws[1..], t);
      assert ws[0] !in Enqueued(ts, ws[1..], t);
    }
  }

  lemma {:induction false} EnqueuedSorted(ts: seq<Thread>, ws: seq<nat>, t: nat)
    requires t < |ts| && Below(ws, |ts|)
    requires Sorted(ts, ws)
    ensures Sorted(ts, Enqueued(ts, ws, t))
  {
    if ws != [] && ts[t].curr >= ts[ws[0]].curr {
      assert forall k :: 0 <= k < |ws[1..]| ==> ws[1..][k] == ws[k + 1];
      EnqueuedSorted(ts, ws[1..], t);
      var r := Enqueued(ts, ws[1..], t);
      assert ts[ws[0]].curr <= ts[r[0]].curr;
      assert forall k :: 0 <= k < |r| ==> ts[r[0]].curr <= ts[r[k]].curr;
    }
  }

  lemma EnqueuedOk(ts: seq<Thread>, ws: seq<nat>, t: nat, p: nat)
    requires t < |ts| && Below(ws, |ts|) && ListOk(ts, ws, p)
    ensures ListOk(ts, Enqueued(ts, ws, t), Min(p, ts[t].curr))
  {
    EnqueuedSorted(ts, ws, t);
    var r := Enqueued(ts, ws, t);
    forall i | 0 <= i < |r| ensures Min(p, ts[t].curr) <= ts[r[i]].curr {
      assert r[i] in r;
    }
  }

  // Joining the list leaves everyone else's relative order alone.
  lemma {:induction false} EnqueuedOrder(ts: seq<Thread>, ws: seq<nat>, t: nat)
    requires t < |ts| && Below(ws, |ts|)
    requires t !in ws
    ensures Remove(Enqueued(ts, ws, t), t) == ws
  {
    if ws != [] && ts[t].curr >= ts[ws[0]].curr {
      EnqueuedOrder(ts, ws[1..], t);
      assert Enqueued(ts, ws, t)[1..] == Enqueued(ts, ws[1..], t);
    }
  }

  // ---------------------------------------------------------------------
  // Well-formed states
  // ---------------------------------------------------------------------

  ghost predicate ThreadOk(s: Sys, t: nat)
    requires t < |s.ts|
  {
    var th := s.ts[t];
    && th.init < PRIORITY_MAX && th.curr < PRIORITY_MAX
    && NoDup(th.taken) && Below(th.taken, |s.ms|)
    && (forall m :: m in th.taken ==> s.ms[m].owner == Some(t))
    && (th.pending.Some? ==>
          && th.pending.value < |s.ms|
          && s.ms[th.pending.value].owner != Some(t)
          && (th.suspended ==> t in s.ms[th.pending.value].waiters))
  }

  ghost predicate MutexOk(s: Sys, m: nat)
    requires m < |s.ms|
  {
    var mu := s.ms[m];
    && mu.prio <= NO_PRIORITY && mu.ceiling <= NO_PRIORITY
    && (mu.owner.Some? ==>
          && mu.owner.value < |s.ts|
          && m in s.ts[mu.owner.value].taken
          && 1 <= mu.hold <= HOLD_MAX)
    && (mu.owner.None? ==> mu.hold == 0 && mu.prio == NO_PRIORITY && mu.waiters == [])
    && NoDup(mu.waiters) && Below(mu.waiters, |s.ts|)
    && (forall w :: w in mu.waiters ==>
          s.ts[w].suspended && s.ts[w].pending == Some(m))
  }

  ghost predicate Wf(s: Sys) {
    && (forall t :: 0 <= t < |s.ts| ==> ThreadOk(s, t))
    && (forall m :: 0 <= m < |s.ms| ==> MutexOk(s, m))
  }

  // The priority a thread is owed in state s.
  ghost function Owed(s: Sys, t: nat): nat
    requires t < |s.ts| && ThreadOk(s, t)
  {
    Inherited(s.ms, s.ts[t].taken, s.ts[t].init)
  }

  // What propagation never touches.
  ghost predicate SameShape(s: Sys, r: Sys) {
    && |r.ts| == |s.ts| && |r.ms| == |s.ms|
    && (forall t :: 0 <= t < |s.ts| ==> r.ts[t] == s.ts[t].(curr := r.ts[t].curr))
    && (forall m :: 0 <= m < |s.ms| ==> SameMutex(s.ms[m], r.ms[m]))
  }

  ghost predicate SameMutex(a: Mutex, b: Mutex) {
    && b == a.(prio := b.prio, waiters := b.waiters)
    && |b.waiters| == |a.waiters|
    && forall w :: w in b.waiters <==> w in a.waiters
  }

  // ---------------------------------------------------------------------
  // _thread_update_priority as a function
  // ---------------------------------------------------------------------

  function SetCurr(s: Sys, t: nat, p: nat): Sys
    requires t < |s.ts|
  {
    s.(ts := s.ts[t := s.ts[t].(curr := p)])
  }

  // Re-sort a waiting thread and refresh the mutex it waits for.
  function Requeue(s: Sys, t: nat): Sys
    requires t < |s.ts| && s.ts[t].pending.Some? && s.ts[t].pending.value < |s.ms|
    requires Below(s.ms[s.ts[t].pending.value].waiters, |s.ts|)
  {
    var m := s.ts[t].pending.value;
    var ws := Enqueued(s.ts, Remove(s.ms[m].waiters, t), t);
    s.(ms := s.ms[m := s.ms[m].(waiters := ws, prio := HeadPrio(s.ts, ws))])
  }

  lemma SetCurrWf(s: Sys, t: nat, p: nat)
    requires Wf(s) && t < |s.ts| && p < PRIORITY_MAX
    ensures Wf(SetCurr(s, t, p))
  {
    var s' := SetCurr(s, t, p);
    forall u | 0 <= u < |s'.ts| ensures ThreadOk(s', u) {
      assert ThreadOk(s, u);
    }
    forall m | 0 <= m < |s'.ms| ensures MutexOk(s', m) {
      assert MutexOk(s, m);
    }
  }

  lemma RequeueWf(s: Sys, t: nat)
    requires Wf(s) && t < |s.ts| && s.ts[t].pending.Some? && s.ts[t].suspended
    ensures s.ts[t].pending.value < |s.ms|
    ensures MutexOk(s, s.ts[t].pending.value) && s.ms[s.ts[t].pending.value].owner.Some?
    ensures Wf(Requeue(s, t))
  {
    assert ThreadOk(s, t);
    var m := s.ts[t].pending.value;
    assert MutexOk(s, m) && t in s.ms[m].waiters;
    var rest := Remove(s.ms[m].waiters, t);
    RemoveNoDup(s.ms[m].waiters, t);
    EnqueuedNoDup(s.ts, rest, t);
    var s' := Requeue(s, t);
    assert s'.ms[m].waiters[0] in s'.ms[m].waiters;
    forall u | 0 <= u < |s'.ts| ensures ThreadOk(s', u) {
      assert ThreadOk(s, u);
    }
    forall k | 0 <= k < |s'.ms| ensures MutexOk(s', k) {
      assert MutexOk(s, k);
      assert forall w :: w in s'.ms[k].waiters ==> w in s.ms[k].waiters;
      if k == m { 
        var h := s'.ms[m].waiters[0];
        assert ThreadOk(s, h);
      }
    }
  }

  lemma RequeueShape(s: Sys, t: nat)
    requires Wf(s) && t < |s.ts| && s.ts[t].pending.Some? && s.ts[t].suspended
    requires s.ts[t].pending.value < |s.ms| && Below(s.ms[s.ts[t].pending.value].waiters, |s.ts|)
    ensures SameShape(s, Requeue(s, t))
    ensures var m := s.ts[t].pending.value; var s1 := Requeue(s, t);
      && s1.ms[m].owner.Some? && s1.ms[m].owner.value < |s.ts|
      && ThreadOk(s1, s1.ms[m].owner.value)
      && Owed(s1, s1.ms[m].owner.value) <= s1.ms[m].prio <= s.ts[t].curr
      && Owed(s1, s1.ms[m].owner.value) < PRIORITY_MAX
  {
    RequeueWf(s, t);
    var m := s.ts[t].pending.value;
    var s1 := Requeue(s, t);
    assert ThreadOk(s, t) && MutexOk(s, m) && MutexOk(s1, m);
    var o := s1.ms[m].owner.value;
    assert ThreadOk(s1, o);
    assert s1.ms[m].prio == s1.ts[s1.ms[m].waiters[0]].curr;
  }

  ghost function SumCurr(ts: seq<Thread>): nat {
    if ts == [] then 0 else ts[0].curr + SumCurr(ts[1..])
  }

  lemma {:induction false} SumCurrUpdate(ts: seq<Thread>, t: nat, p: nat)
    requires t < |ts|
    ensures SumCurr(ts[t := ts[t].(curr := p)]) == SumCurr(ts) - ts[t].curr + p
  {
    var us := ts[t := ts[t].(curr := p)];
    if t == 0 {
      assert us[1..] == ts[1..];
    } else {
      SumCurrUpdate(ts[1..], t - 1, p);
      assert us[1..] == ts[1..][t - 1 := ts[1..][t - 1].(curr := p)];
    }
  }

  ghost function Tids(n: nat): (r: set<nat>)
    ensures forall u: nat :: u in r <==> u < n
  {
    if n == 0 then {} else Tids(n - 1) + {n - 1}
  }

  // Thread t is parked on a mutex, so the chain goes on behind it.
  ghost predicate Chained(s: Sys, t: nat) {
    t < |s.ts| && s.ts[t].suspended && s.ts[t].pending.Some?
  }

  // One turn of the loop, in three parts: t re-sorted, ...
  ghost function Requeued(s: Sys, t: nat): (r: Sys)
    requires Wf(s) && Chained(s, t)
    ensures Wf(r) && SameShape(s, r)
  {
    RequeueWf(s, t);
    RequeueShape(s, t);
    Requeue(s, t)
  }

  // ... the owner of its mutex, ...
  ghost function ChainOwner(s: Sys, t: nat): (o: nat)
    requires Wf(s) && Chained(s, t)
    ensures o < |s.ts| && ThreadOk(Requeued(s, t), o)
    ensures Owed(Requeued(s, t), o) <= s.ts[t].curr
  {
    RequeueWf(s, t);
    RequeueShape(s, t);
    assert ThreadOk(s, t) && MutexOk(s, s.ts[t].pending.value);
    s.ms[s.ts[t].pending.value].owner.value
  }

  // ... and the owner given what it is owed.
  ghost function ChainNext(s: Sys, t: nat): (r: Sys)
    requires Wf(s) && Chained(s, t)
    ensures Wf(r) && SameShape(s, r)
  {
    var s1 := Requeued(s, t);
    var o := ChainOwner(s, t);
    assert ThreadOk(s, t);
    SetCurrWf(s1, o, Owed(s1, o));
    SetCurr(s1, o, Owed(s1, o))
  }

  // Threads outside `untouched` are no more urgent than t.
  ghost predicate Descending(s: Sys, t: nat, untouched: set<nat>) {
    t < |s.ts| && forall v: nat :: v < |s.ts| && v !in untouched ==> s.ts[t].curr <= s.ts[v].curr
  }

  // Each value written is at most the one before it, so going round a deadlock
  // cycle lowers the sum of the priorities.
  lemma ChainDescends(s: Sys, t: nat, untouched: set<nat>)
    requires Wf(s) && Chained(s, t) && Descending(s, t, untouched)
    ensures var o := ChainOwner(s, t); var s2 := ChainNext(s, t);
      && Descending(s2, o, untouched - {o})
      && (s.ts[o].curr == s2.ts[o].curr ==> s2 == Requeued(s, t))
      && (o !in untouched && s.ts[o].curr != s2.ts[o].curr ==>
            untouched - {o} == untouched && SumCurr(s2.ts) < SumCurr(s.ts))
  {
    var o := ChainOwner(s, t);
    var s1 := Requeued(s, t);
    SumCurrUpdate(s1.ts, o, Owed(s1, o));
    assert s1.ts == s.ts;
  }

  // The loop of _thread_update_priority from the moment the priority of
  // thread t has been written. `untouched` holds the threads not written so
  // far; it only measures progress.
  ghost function Propagate(s: Sys, t: nat, untouched: set<nat>): (r: Sys)
    requires Wf(s) && Descending(s, t, untouched)
    ensures Wf(r) && SameShape(s, r)
    decreases untouched, SumCurr(s.ts)
  {
    if !Chained(s, t) then s
    else
      var o := ChainOwner(s, t);
      var s2 := ChainNext(s, t);
      ChainDescends(s, t, untouched);
      if s2.ts[o].curr == s.ts[o].curr then s2
      else
        SameShapeTrans(s, s2, Propagate(s2, o, untouched - {o}));
        Propagate(s2, o, untouched - {o})
  }

  lemma SameShapeTrans(a: Sys, b: Sys, c: Sys)
    requires SameShape(a, b) && SameShape(b, c)
    ensures SameShape(a, c)
  {
    assert forall t :: 0 <= t < |a.ts| ==> c.ts[t] == b.ts[t].(curr := c.ts[t].curr);
    forall m | 0 <= m < |a.ms| ensures SameMutex(a.ms[m], c.ms[m]) {
      assert SameMutex(a.ms[m], b.ms[m]) && SameMutex(b.ms[m], c.ms[m]);
    }
  }

  // ---------------------------------------------------------------------
  // The two invariants
  // ---------------------------------------------------------------------

  // No priority inversion at mutex m: its list is sorted and
  //   owner.curr <= m.prio <= every waiter's curr.
  ghost predicate Guarded(s: Sys, m: nat)
    requires m < |s.ms| && Below(s.ms[m].waiters, |s.ts|)
  {
    var mu := s.ms[m];
    && ListGuarded(s, m)
    && (mu.owner.Some? && mu.owner.value < |s.ts| ==> s.ts[mu.owner.value].curr <= mu.prio)
  }

  ghost predicate ListGuarded(s: Sys, m: nat)
    requires m < |s.ms| && Below(s.ms[m].waiters, |s.ts|)
  {
    ListOk(s.ts, s.ms[m].waiters, s.ms[m].prio)
  }

  ghost predicate NoInversion(s: Sys) {
    Wf(s) && forall m :: 0 <= m < |s.ms| ==> MutexOk(s, m) && Guarded(s, m)
  }

  // Mutex m advertises exactly its head waiter.
  ghost predicate Fresh(s: Sys, m: nat)
    requires m < |s.ms| && Below(s.ms[m].waiters, |s.ts|)
  {
    Sorted(s.ts, s.ms[m].waiters) && s.ms[m].prio == HeadPrio(s.ts, s.ms[m].waiters)
  }

  ghost predicate Paid(s: Sys, t: nat)
    requires t < |s.ts|
  {
    ThreadOk(s, t) && s.ts[t].curr == Owed(s, t)
  }

  // The same, but a mutex in lax may advertise anything.
  ghost predicate FreshUnless(s: Sys, m: nat, lax: set<nat>)
    requires m < |s.ms| && Below(s.ms[m].waiters, |s.ts|)
  {
    Sorted(s.ts, s.ms[m].waiters) && (m !in lax ==> Fresh(s, m))
  }

  // Every thread runs at the priority it is owed, every wait list is in order,
  // and every mutex outside lax advertises its head waiter.
  ghost predicate ExactOutside(s: Sys, lax: set<nat>) {
    && Wf(s)
    && (forall t :: 0 <= t < |s.ts| ==> Paid(s, t))
    && (forall m :: 0 <= m < |s.ms| ==> MutexOk(s, m) && FreshUnless(s, m, lax))
  }

  // Exact inheritance.
  ghost predicate Exact(s: Sys) {
    ExactOutside(s, {})
  }

  lemma ExactWider(s: Sys, lax: set<nat>, wider: set<nat>)
    requires ExactOutside(s, lax) && lax <= wider
    ensures ExactOutside(s, wider)
  {
    forall m | 0 <= m < |s.ms| ensures MutexOk(s, m) && FreshUnless(s, m, wider) {
      assert MutexOk(s, m) && FreshUnless(s, m, lax);
    }
  }

  // Thread t waits for m and its place in the list may be stale.
  ghost predicate StaleAt(s: Sys, t: nat, m: nat) {
    Chained(s, t) && s.ts[t].pending == Some(m)
  }

  // ... but the rest of that list is in order.
  ghost predicate SortedWithout(s: Sys, t: nat, m: nat)
    requires m < |s.ms| && Below(s.ms[m].waiters, |s.ts|)
  {
    Sorted(s.ts, Remove(s.ms[m].waiters, t))
  }

  lemma SetCurrSortedWithout(s: Sys, t: nat, p: nat, ws: seq<nat>)
    requires t < |s.ts| && Below(ws, |s.ts|) && Sorted(s.ts, ws) && NoDup(ws)
    ensures Below(Remove(ws, t), |s.ts|) && Sorted(SetCurr(s, t, p).ts, Remove(ws, t))
  {
    ListOkRemove(s.ts, SetCurr(s, t, p).ts, ws, t, 0);
  }

  // Re-sorting repairs the list of t's mutex.
  lemma RequeueSorts(s: Sys, t: nat, m: nat)
    requires Wf(s) && StaleAt(s, t, m) && m < |s.ms| && MutexOk(s, m) && SortedWithout(s, t, m)
    ensures var s1 := Requeue(s, t);
      Wf(s1) && MutexOk(s1, m) && Fresh(s1, m) && ListGuarded(s1, m)
  {
    RequeueWf(s, t);
    EnqueuedSorted(s.ts, Remove(s.ms[m].waiters, t), t);
    assert MutexOk(Requeue(s, t), m);
  }

  // The inequality at m, as far as it can hold while t may be stale.
  ghost predicate GuardedAt(s: Sys, t: nat, m: nat)
    requires m < |s.ms|
  {
    MutexOk(s, m) && if StaleAt(s, t, m) then SortedWithout(s, t, m) else Guarded(s, m)
  }

  ghost predicate GuardedBut(s: Sys, t: nat) {
    Wf(s) && forall m :: 0 <= m < |s.ms| ==> GuardedAt(s, t, m)
  }

  // Writing one priority leaves at most the writer's own wait stale.
  lemma SetCurrGuards(s: Sys, o: nat, p: nat, k: nat)
    requires Wf(s) && o < |s.ts| && p < PRIORITY_MAX
    requires k < |s.ms| && MutexOk(s, k) && ListGuarded(s, k)
    requires s.ms[k].owner != Some(o) ==> Guarded(s, k)
    requires s.ms[k].owner == Some(o) ==> p <= s.ms[k].prio
    ensures GuardedAt(SetCurr(s, o, p), o, k)
    ensures p == s.ts[o].curr ==> Guarded(s, k)
  {
    SetCurrWf(s, o, p);
    var s2 := SetCurr(s, o, p);
    assert MutexOk(s2, k);
    if StaleAt(s2, o, k) {
      SetCurrSortedWithout(s, o, p, s.ms[k].waiters);
    } else {
      assert o !in s.ms[k].waiters;
      ListOkFrame(s.ts, s2.ts, s.ms[k].waiters, s.ms[k].prio);
    }
  }

  lemma RequeuedGuards(s: Sys, t: nat, k: nat)
    requires GuardedBut(s, t) && Chained(s, t) && k < |s.ms|
    ensures var s1 := Requeued(s, t);
      && MutexOk(s1, k) && ListGuarded(s1, k)
      && (s.ts[t].pending != Some(k) ==> Guarded(s1, k))
  {
    assert ThreadOk(s, t) && GuardedAt(s, t, k);
    if s.ts[t].pending == Some(k) {
      RequeueSorts(s, t, k);
    }
    assert MutexOk(Requeued(s, t), k);
  }

  // Giving the owner what it is owed keeps the inequality at every mutex k.
  lemma ChainNextGuards(s: Sys, t: nat, k: nat)
    requires GuardedBut(s, t) && Chained(s, t) && k < |s.ms|
    ensures var o := ChainOwner(s, t); var s2 := ChainNext(s, t);
      GuardedAt(s2, o, k) && (s2.ts[o].curr == s.ts[o].curr ==> MutexOk(s2, k) && Guarded(s2, k))
  {
    RequeuedGuards(s, t, k);
    var o := ChainOwner(s, t);
    var s1 := Requeued(s, t);
    assert ThreadOk(s1, o);
    assert s1.ms[k].owner == Some(o) ==> k in s1.ts[o].taken;
    SetCurrGuards(s1, o, Owed(s1, o), k);
    assert s1.ts == s.ts;
    assert s1.ts[o].curr == Owed(s1, o) ==> ChainNext(s, t) == s1;
  }

  // Raising or lowering one priority, then running the chain, restores the
  // inequality everywhere.
  lemma {:induction false} PropagateGuards(s: Sys, t: nat, untouched: set<nat>)
    requires Descending(s, t, untouched) && GuardedBut(s, t)
    ensures NoInversion(Propagate(s, t, untouched))
    decreases untouched, SumCurr(s.ts)
  {
    if !Chained(s, t) {
      forall m | 0 <= m < |s.ms| ensures MutexOk(s, m) && Guarded(s, m) {
        assert GuardedAt(s, t, m);
      }
    } else {
      var o := ChainOwner(s, t);
      var s2 := ChainNext(s, t);
      ChainDescends(s, t, untouched);
      forall k | 0 <= k < |s2.ms|
        ensures GuardedAt(s2, o, k) && (s2.ts[o].curr == s.ts[o].curr ==> MutexOk(s2, k) && Guarded(s2, k))
      {
        ChainNextGuards(s, t, k);
      }
      if s2.ts[o].curr != s.ts[o].curr {
        PropagateGuards(s2, o, untouched - {o});
      }
    }
  }

  // The same for exactness. Only the owner of t's mutex is owed anything new.
  ghost predicate FreshAt(s: Sys, t: nat, m: nat, lax: set<nat>)
    requires m < |s.ms|
  {
    MutexOk(s, m) && if StaleAt(s, t, m) then SortedWithout(s, t, m) else FreshUnless(s, m, lax)
  }

  ghost predicate ExactBut(s: Sys, t: nat, lax: set<nat>) {
    && Wf(s)
    && (forall u :: 0 <= u < |s.ts| ==> Paid(s, u))
    && (forall m :: 0 <= m < |s.ms| ==> FreshAt(s, t, m, lax))
  }

  lemma {:induction false} InheritedFrame(ms: seq<Mutex>, ms': seq<Mutex>, taken: seq<nat>, init: nat)
    requires |ms| == |ms'| && Below(taken, |ms|)
    requires forall m :: m in taken ==> MutexPrio(ms[m]) == MutexPrio(ms'[m])
    ensures Inherited(ms, taken, init) == Inherited(ms', taken, init)
  {
    if taken != [] {
      var last := taken[|taken| - 1];
      assert taken == taken[..|taken| - 1] + [last];
      assert last in taken;
      InheritedFrame(ms, ms', taken[..|taken| - 1], init);
    }
  }

  lemma SetCurrFresh(s: Sys, o: nat, p: nat, k: nat, lax: set<nat>)
    requires Wf(s) && o < |s.ts| && p < PRIORITY_MAX
    requires k < |s.ms| && MutexOk(s, k) && FreshUnless(s, k, lax)
    ensures FreshAt(SetCurr(s, o, p), o, k, lax)
  {
    SetCurrWf(s, o, p);
    var s2 := SetCurr(s, o, p);
    assert MutexOk(s2, k);
    if StaleAt(s2, o, k) {
      SetCurrSortedWithout(s, o, p, s.ms[k].waiters);
    } else {
      assert o !in s.ms[k].waiters;
    }
  }

  lemma SetCurrPaid(s: Sys, o: nat, u: nat)
    requires Wf(s) && o < |s.ts| && u < |s.ts| && ThreadOk(s, o) && Owed(s, o) < PRIORITY_MAX
    requires u != o ==> Paid(s, u)
    ensures Paid(SetCurr(s, o, Owed(s, o)), u)
  {
    SetCurrWf(s, o, Owed(s, o));
    assert ThreadOk(SetCurr(s, o, Owed(s, o)), u);
  }

  lemma ChainNextFresh(s: Sys, t: nat, k: nat, lax: set<nat>)
    requires ExactBut(s, t, lax) && Chained(s, t) && k < |s.ms|
    ensures var o := ChainOwner(s, t); var s2 := ChainNext(s, t);
      FreshAt(s2, o, k, lax) && (s2.ts[o].curr == s.ts[o].curr ==> FreshUnless(s2, k, lax))
  {
    assert ThreadOk(s, t);
    var m := s.ts[t].pending.value;
    assert FreshAt(s, t, m, lax) && FreshAt(s, t, k, lax);
    RequeueSorts(s, t, m);
    var o := ChainOwner(s, t);
    var s1 := Requeued(s, t);
    assert MutexOk(s1, k) && FreshUnless(s1, k, lax);
    SetCurrFresh(s1, o, Owed(s1, o), k, lax);
    assert s1.ts[o].curr == Owed(s1, o) ==> ChainNext(s, t) == s1;
  }

  lemma ChainNextPaid(s: Sys, t: nat, u: nat, lax: set<nat>)
    requires ExactBut(s, t, lax) && Chained(s, t) && u < |s.ts|
    ensures Paid(ChainNext(s, t), u)
  {
    assert ThreadOk(s, t) && ThreadOk(s, u);
    var m := s.ts[t].pending.value;
    var o := ChainOwner(s, t);
    var s1 := Requeued(s, t);
    assert MutexOk(s, m) && ThreadOk(s1, u);
    if u != o {
      assert Paid(s, u);
      assert m !in s.ts[u].taken;
      InheritedFrame(s.ms, s1.ms, s.ts[u].taken, s.ts[u].init);
    }
    SetCurrPaid(s1, o, u);
  }

  lemma {:induction false} PropagateExact(s: Sys, t: nat, untouched: set<nat>, lax: set<nat>)
    requires Descending(s, t, untouched) && ExactBut(s, t, lax)
    ensures ExactOutside(Propagate(s, t, untouched), lax)
    decreases untouched, SumCurr(s.ts)
  {
    if !Chained(s, t) {
      forall m | 0 <= m < |s.ms| ensures MutexOk(s, m) && FreshUnless(s, m, lax) {
        assert FreshAt(s, t, m, lax);
      }
    } else {
      var o := ChainOwner(s, t);
      var s2 := ChainNext(s, t);
      ChainDescends(s, t, untouched);
      forall k | 0 <= k < |s2.ms|
        ensures FreshAt(s2, o, k, lax)
        ensures s2.ts[o].curr == s.ts[o].curr ==> MutexOk(s2, k) && FreshUnless(s2, k, lax)
      {
        ChainNextFresh(s, t, k, lax);
      }
      forall u | 0 <= u < |s2.ts| ensures Paid(s2, u) {
        ChainNextPaid(s, t, u, lax);
      }
      if s2.ts[o].curr != s.ts[o].curr {
        PropagateExact(s2, o, untouched - {o}, lax);
      }
    }
  }
}
