// Round robin among the threads that share the highest ready priority
// (rt-thread/src/scheduler_comm.c, rt_sched_tick_increase).

module SchedulerRobin {
  import opened Arith
  import opened Common
  import opened Bits
  import opened Scheduler
  import opened SchedulerRuns

  // The lock is open and a thread is running.
  ghost predicate Going(s: State) {
    Calm(s, false) && s.nest == 0 && s.ts[s.current].stat == Running
  }

  function Level(s: State): nat
    requires s.current < |s.ts|
  {
    s.ts[s.current].prio
  }

  // The threads that take turns, the running one first.
  function Ring(s: State): (r: seq<nat>)
    requires s.current < |s.ts| && Level(s) < |s.queues|
    ensures r != []
  {
    [s.current] + s.queues[Level(s)]
  }

  function Rotated(ring: seq<nat>, e: nat): seq<nat>
    requires e < |ring|
  {
    ring[e..] + ring[..e]
  }

  lemma RingNoDup(s: State)
    requires Going(s)
    ensures Level(s) < |s.queues| && NoDup(Ring(s))
  {
    assert ThreadOk(s, s.current);
    assert QueueOk(s, Level(s));
    ReadyIsQueued(s, s.current, Level(s));
  }

  // Nothing more urgent is ready.
  lemma LevelIsHighest(s: State)
    requires Going(s)
    ensures Level(s) < PRIORITY_MAX
    ensures s.queues[Level(s)] != [] ==> Highest(s.queues, 0) == Level(s)
    ensures s.queues[Level(s)] == [] ==> Highest(s.queues, 0) > Level(s)
  {
    assert ThreadOk(s, s.current);
    var h := Highest(s.queues, 0);
    if h < PRIORITY_MAX {
      QueuedIsReady(s, s.queues[h][0], h);
      assert Outranks(s, s.queues[h][0]);
    }
  }

  // The state at the end of a time slice: the running thread goes to the back
  // of its queue with a full slice, and the front of the queue runs.
  function Handed(s: State): State
    requires s.current < |s.ts| && Level(s) < |s.queues|
    requires s.queues[Level(s)] != [] ==> s.queues[Level(s)][0] < |s.ts|
  {
    var q, c := s.queues[Level(s)], s.ts[s.current];
    if q == [] then s.(ts := s.ts[s.current := c.(tick := c.initTick, yielded := true)])
    else
      var ts := s.ts[s.current := c.(tick := c.initTick, stat := Ready, yielded := false)];
      State(ts[q[0] := ts[q[0]].(stat := Running)], s.queues[Level(s) := q[1..] + [s.current]], q[0], s.nest, s.pend)
  }

  lemma FrontOfQueue(s: State)
    requires Going(s)
    ensures Level(s) < |s.queues|
    ensures var q := s.queues[Level(s)];
      q != [] ==> q[0] < |s.ts| && q[0] != s.current && s.ts[q[0]].prio == Level(s) && s.ts[q[0]].stat == Ready
  {
    assert ThreadOk(s, s.current);
    var q := s.queues[Level(s)];
    if q != [] { QueuedIsReady(s, q[0], Level(s)); }
  }

  lemma SliceEnds(s: State, n: nat)
    requires Going(s) && s.ts[s.current].tick <= n
    ensures Level(s) < |s.queues| && (s.queues[Level(s)] != [] ==> s.queues[Level(s)][0] < |s.ts|)
    ensures Tick(s, n) == Handed(s)
  {
    LevelIsHighest(s);
    FrontOfQueue(s);
    var g := GiveSlice(s);
    assert ThreadOk(s, s.current);
    UnqueuedWf(s, s.current, g.ts[s.current]);
    if s.queues[Level(s)] != [] {
      SwitchQueue(g, Level(s));
    }
  }

  lemma HandedRing(s: State)
    requires Going(s)
    ensures Level(s) < |s.queues| && (s.queues[Level(s)] != [] ==> s.queues[Level(s)][0] < |s.ts|)
    ensures var r := Handed(s);
      && r.current < |r.ts| && Level(r) == Level(s) && |r.queues| == |s.queues|
      && r.ts[r.current].stat == Running
      && Ring(r) == Rotated(Ring(s), 1 % |Ring(s)|)
  {
    FrontOfQueue(s);
    var q := s.queues[Level(s)];
    if q == [] {
      SmallMod(0, 1);
    } else {
      SmallMod(1, |Ring(s)|);
      assert q == [q[0]] + q[1..];
    }
  }

  lemma TickGoing(s: State, n: nat)
    requires Going(s)
    ensures Going(Tick(s, n))
  {
    TickCalm(s, n, false);
    if s.ts[s.current].tick <= n {
      SliceEnds(s, n);
      HandedRing(s);
    }
  }

  // A run of tick interrupts, and how many of them end a slice.
  ghost function Ticks(s: State, ns: seq<nat>): (r: State)
    requires Going(s)
    ensures Going(r)
    decreases |ns|
  {
    if ns == [] then s else
      TickGoing(s, ns[0]);
      Ticks(Tick(s, ns[0]), ns[1..])
  }

  ghost function Expiries(s: State, ns: seq<nat>): nat
    requires Going(s)
    decreases |ns|
  {
    if ns == [] then 0
    else
      TickGoing(s, ns[0]);
      (if s.ts[s.current].tick <= ns[0] then 1 else 0) + Expiries(Tick(s, ns[0]), ns[1..])
  }

  lemma TickRing(s: State, n: nat)
    requires Going(s)
    ensures var r := Tick(s, n);
      && Going(r) && Level(r) == Level(s) < |s.queues| && |r.queues| == |s.queues|
      && Ring(r) == (if s.ts[s.current].tick <= n then Rotated(Ring(s), 1 % |Ring(s)|) else Ring(s))
  {
    TickGoing(s, n);
    assert ThreadOk(s, s.current);
    if s.ts[s.current].tick <= n {
      SliceEnds(s, n);
      HandedRing(s);
    }
  }

  // Any k consecutive slices: however the tick interrupts fall, the e-th slice
  // belongs to the e-th thread of the ring, modulo its size.
  lemma {:induction false} RoundRobin(s: State, ns: seq<nat>)
    requires Going(s)
    ensures var r := Ticks(s, ns);
      && Level(r) == Level(s) < |s.queues| && |r.queues| == |s.queues|
      && Ring(r) == Rotated(Ring(s), Expiries(s, ns) % |Ring(s)|)
    decreases |ns|
  {
    hide Rotated, Tick, Settled, QueueOk;
    assert ThreadOk(s, s.current);
    var ring := Ring(s);
    if ns == [] {
      RotatedNot(ring);
    } else {
      TickRing(s, ns[0]);
      var s1 := Tick(s, ns[0]);
      RoundRobin(s1, ns[1..]);
      RingStep(ring, Ring(s1), s.ts[s.current].tick <= ns[0], Expiries(s1, ns[1..]));
    }
  }

  lemma RotatedNot(ring: seq<nat>)
    requires ring != []
    ensures Rotated(ring, 0 % |ring|) == ring
  {
    SmallMod(0, |ring|);
  }

  lemma RingStep(ring: seq<nat>, ring1: seq<nat>, expired: bool, e: nat)
    requires ring != [] && ring1 == if expired then Rotated(ring, 1 % |ring|) else ring
    ensures ring1 != []
    ensures Rotated(ring1, e % |ring1|) == Rotated(ring, ((if expired then 1 else 0) + e) % |ring|)
  {
    RotateOnce(ring, e);
  }

  lemma RotateOnce(ring: seq<nat>, e: nat)
    requires ring != []
    ensures Rotated(Rotated(ring, 1 % |ring|), e % |ring|) == Rotated(ring, (e + 1) % |ring|)
  {
    var k := |ring|;
    ModStep(e, k);
    if k == 1 {
      SmallMod(0, 1);
    } else {
      SmallMod(1, k);
      RotateStep(ring, e % k);
    }
  }

  lemma RotateStep(ring: seq<nat>, e: nat)
    requires e < |ring|
    ensures Rotated(Rotated(ring, 1 % |ring|), e) == Rotated(ring, if e == |ring| - 1 then 0 else e + 1)
  {
    var k := |ring|;
    if k == 1 {
      SmallMod(0, 1);
    } else {
      SmallMod(1, k);
      var once := ring[1..] + ring[..1];
      if e == k - 1 {
        assert once[e..] == ring[..1] && once[..e] == ring[1..];
      } else {
        assert once[e..] == ring[e + 1..] + ring[..1] && once[..e] == ring[1..e + 1];
        assert ring[..e + 1] == ring[..1] + ring[1..e + 1];
      }
    }
  }

  // Different slices of one turn belong to different threads.
  lemma OnceEach(s: State, ns: seq<nat>, ms: seq<nat>)
    requires Going(s)
    requires Level(s) < |s.queues| && Expiries(s, ns) < Expiries(s, ms) < |Ring(s)|
    ensures Ticks(s, ns).current == Ring(s)[Expiries(s, ns)]
    ensures Ticks(s, ns).current != Ticks(s, ms).current
  {
    RoundRobin(s, ns);
    RoundRobin(s, ms);
    RingNoDup(s);
    SmallMod(Expiries(s, ns), |Ring(s)|);
    SmallMod(Expiries(s, ms), |Ring(s)|);
    assert Ring(Ticks(s, ns))[0] == Ring(s)[Expiries(s, ns)];
    assert Ring(Ticks(s, ms))[0] == Ring(s)[Expiries(s, ms)];
  }

  // --- a full turn changes nothing ------------------------------------------------

  // Everybody in the ring has a full slice, and there are at least two.
  ghost predicate Fresh(s: State) {
    && Going(s) && Level(s) < |s.queues| && |Ring(s)| >= 2 && !s.ts[s.current].yielded
    && forall i :: 0 <= i < |Ring(s)| ==> FullSlice(s, Ring(s)[i])
  }

  ghost predicate FullSlice(s: State, t: nat) {
    t < |s.ts| && s.ts[t].tick == s.ts[t].initTick > 0
  }

  function Ones(n: nat): (r: seq<nat>)
    ensures |r| == n
  {
    if n == 0 then [] else [1] + Ones(n - 1)
  }

  lemma {:induction false} OnesAdd(a: nat, b: nat)
    ensures Ones(a + b) == Ones(a) + Ones(b)
  {
    if a > 0 {
      OnesAdd(a - 1, b);
      assert [1] + (Ones(a - 1) + Ones(b)) == ([1] + Ones(a - 1)) + Ones(b);
    }
  }

  lemma {:induction false} TicksAdd(s: State, a: seq<nat>, b: seq<nat>)
    requires Going(s)
    ensures Ticks(s, a + b) == Ticks(Ticks(s, a), b)
    decreases |a|
  {
    if a == [] {
      assert a + b == b;
    } else {
      TickGoing(s, a[0]);
      assert (a + b)[0] == a[0] && (a + b)[1..] == a[1..] + b;
      TicksAdd(Tick(s, a[0]), a[1..], b);
    }
  }

  // A whole slice, tick by tick.
  lemma {:induction false} WholeSlice(s: State)
    requires Going(s) && s.ts[s.current].tick > 0
    ensures Level(s) < |s.queues| && (s.queues[Level(s)] != [] ==> s.queues[Level(s)][0] < |s.ts|)
    ensures Ticks(s, Ones(s.ts[s.current].tick)) == Handed(s)
    decreases s.ts[s.current].tick
  {
    FrontOfQueue(s);
    TickGoing(s, 1);
    var c, s1 := s.ts[s.current], Tick(s, 1);
    assert Ones(c.tick)[0] == 1 && Ones(c.tick)[1..] == Ones(c.tick - 1);
    if c.tick > 1 {
      assert s1 == s.(ts := s.ts[s.current := c.(tick := c.tick - 1)]);
      WholeSlice(s1);
      assert Handed(s1) == Handed(s);
    } else {
      SliceEnds(s, 1);
    }
  }

  // The state when the i-th thread of the ring has just got the CPU.
  function Turn(s: State, i: nat): State
    requires s.current < |s.ts| && Level(s) < |s.queues| && i < |Ring(s)| && Ring(s)[i] < |s.ts|
  {
    var ts := s.ts[s.current := s.ts[s.current].(stat := Ready)];
    var t := Ring(s)[i];
    State(ts[t := ts[t].(stat := Running)], s.queues[Level(s) := Rotated(Ring(s), i)[1..]], t, s.nest, s.pend)
  }

  lemma TurnZero(s: State)
    requires s.current < |s.ts| && Level(s) < |s.queues| && s.ts[s.current].stat == Running
    ensures Turn(s, 0) == s
  {
    assert Rotated(Ring(s), 0) == Ring(s);
    assert Ring(s)[1..] == s.queues[Level(s)];
  }

  lemma RingThread(s: State, i: nat)
    requires Going(s) && Level(s) < |s.queues| && i < |Ring(s)|
    ensures Ring(s)[i] < |s.ts| && s.ts[Ring(s)[i]].prio == Level(s)
    ensures i > 0 ==> Ring(s)[i] != s.current && s.ts[Ring(s)[i]].stat == Ready && !s.ts[Ring(s)[i]].yielded
  {
    assert ThreadOk(s, s.current);
    RingNoDup(s);
    if i > 0 {
      QueuedIsReady(s, Ring(s)[i], Level(s));
      assert ThreadOk(s, Ring(s)[i]);
    }
  }

  function After(s: State, i: nat): nat
    requires s.current < |s.ts| && Level(s) < |s.queues| && i < |Ring(s)|
  {
    if i == |Ring(s)| - 1 then 0 else i + 1
  }

  lemma NextTurn(s: State, i: nat)
    requires Fresh(s) && i < |Ring(s)|
    requires Ring(s)[i] < |s.ts| && Going(Turn(s, i))
    ensures Ring(s)[After(s, i)] < |s.ts|
    ensures var r := Turn(s, i);
      && Level(r) < |r.queues| && r.queues[Level(r)] != [] && r.queues[Level(r)][0] < |r.ts|
      && r.ts[r.current].tick == s.ts[Ring(s)[i]].initTick > 0
      && Handed(r) == Turn(s, After(s, i))
  {
    hide Rotated;
    var ring, j := Ring(s), After(s, i);
    RingThread(s, i);
    RingThread(s, j);
    RingNoDup(s);
    assert FullSlice(s, ring[i]) && FullSlice(s, ring[j]);
    NextInRing(ring, i, j);
  }

  lemma NextInRing(ring: seq<nat>, i: nat, j: nat)
    requires NoDup(ring) && |ring| >= 2 && i < |ring| && j == if i == |ring| - 1 then 0 else i + 1
    ensures ring[i] != ring[j]
    ensures |Rotated(ring, i)| == |Rotated(ring, j)| == |ring|
    ensures var q := Rotated(ring, i)[1..]; q[0] == ring[j] && Rotated(ring, j)[1..] == q[1..] + [ring[i]]
  {
    var q := Rotated(ring, i)[1..];
    RotateStep(ring, i);
    assert Rotated(ring, i) == [ring[i]] + q;
    assert Rotated(Rotated(ring, i), 1)[1..] == q[1..] + [ring[i]];
  }

  // The ticks of the first i slices.
  ghost function SliceTicks(s: State, i: nat): nat
    requires Fresh(s) && i <= |Ring(s)|
  {
    if i == 0 then 0
    else
      assert FullSlice(s, Ring(s)[i - 1]);
      SliceTicks(s, i - 1) + s.ts[Ring(s)[i - 1]].initTick
  }

  lemma OneSlice(s: State, i: nat)
    requires Fresh(s) && i < |Ring(s)| && Ring(s)[i] < |s.ts| && Going(Turn(s, i))
    ensures Ring(s)[After(s, i)] < |s.ts|
    ensures Ticks(Turn(s, i), Ones(s.ts[Ring(s)[i]].initTick)) == Turn(s, After(s, i))
  {
    NextTurn(s, i);
    WholeSlice(Turn(s, i));
  }

  lemma {:induction false} Turns(s: State, i: nat)
    requires Fresh(s) && i < |Ring(s)|
    ensures Ring(s)[i] < |s.ts| && Ticks(s, Ones(SliceTicks(s, i))) == Turn(s, i)
  {
    RingThread(s, i);
    if i == 0 {
      TurnZero(s);
    } else {
      Turns(s, i - 1);
      NextSlice(s, i - 1);
    }
  }

  lemma NextSlice(s: State, i: nat)
    requires Fresh(s) && i < |Ring(s)| && Ring(s)[i] < |s.ts|
    requires Ticks(s, Ones(SliceTicks(s, i))) == Turn(s, i)
    ensures Ring(s)[After(s, i)] < |s.ts|
    ensures Ticks(s, Ones(SliceTicks(s, i + 1))) == Turn(s, After(s, i))
  {
    var n, m := SliceTicks(s, i), s.ts[Ring(s)[i]].initTick;
    OneSlice(s, i);
    OnesAdd(n, m);
    TicksAdd(s, Ones(n), Ones(m));
  }

  // After as many ticks as the ring's slices add up to, the scheduler is exactly
  // where it was; in between each thread has run for its own slice.
  lemma FullTurn(s: State)
    requires Fresh(s)
    ensures Ticks(s, Ones(SliceTicks(s, |Ring(s)|))) == s
    ensures forall i :: 0 <= i < |Ring(s)| ==>
      Ring(s)[i] < |s.ts| && Ticks(s, Ones(SliceTicks(s, i))) == Turn(s, i)
  {
    var k := |Ring(s)|;
    forall i | 0 <= i < k ensures Ring(s)[i] < |s.ts| && Ticks(s, Ones(SliceTicks(s, i))) == Turn(s, i) { Turns(s, i); }
    NextSlice(s, k - 1);
    TurnZero(s);
  }
}
