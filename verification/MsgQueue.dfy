// The message queue of rt-thread/src/ipc.c (built without message priorities) as
// a transition system. A node is owned by the queue, by the free list, or - while
// its data are copied outside the lock - by one thread.

module MsgQueue {
  import opened Common
  import opened Deques

  type Bytes = seq<int>

  datatype Cell = Cell(node: nat, msg: Bytes)

  // What a thread is doing with the node it owns.
  datatype Flight = Sending(node: nat, msg: Bytes, urgent: bool, copied: bool)
    | Receiving(node: nat, msg: Bytes, room: nat)

  datatype State = State(queue: seq<Cell>, free: seq<nat>, flights: map<nat, Flight>)

  function Ids(queue: seq<Cell>): (r: seq<nat>)
    ensures |r| == |queue| && forall i :: 0 <= i < |r| ==> r[i] == queue[i].node
  {
    seq(|queue|, i requires 0 <= i < |queue| => queue[i].node)
  }

  // The deque the queue's users see.
  function Msgs(queue: seq<Cell>): (r: seq<Bytes>)
    ensures |r| == |queue| && forall i :: 0 <= i < |r| ==> r[i] == queue[i].msg
  {
    seq(|queue|, i requires 0 <= i < |queue| => queue[i].msg)
  }

  // --- steps: one critical section, or one copy outside the lock -----------------

  // The first half of a send; nothing happens if the message is too long or no
  // node is free.
  function BeginSend(s: State, size: nat, t: nat, msg: Bytes, urgent: bool): State {
    if |msg| > size || s.free == [] then s
    else s.(free := s.free[1..], flights := s.flights[t := Sending(s.free[0], msg, urgent, false)])
  }

  // The copy between the two halves.
  function CopyIn(s: State, t: nat): State
    requires t in s.flights && s.flights[t].Sending?
  {
    s.(flights := s.flights[t := s.flights[t].(copied := true)])
  }

  // The second half of a send.
  function EndSend(s: State, t: nat): State
    requires t in s.flights && s.flights[t].Sending?
  {
    var f := s.flights[t];
    var cell := Cell(f.node, f.msg);
    State(if f.urgent then [cell] + s.queue else s.queue + [cell], s.free, s.flights - {t})
  }

  // The first half of a receive that finds a message.
  function BeginRecv(s: State, t: nat, room: nat): State {
    if s.queue == [] then s
    else s.(queue := s.queue[1..], flights := s.flights[t := Receiving(s.queue[0].node, s.queue[0].msg, room)])
  }

  // What the receiver copies out, and returns the length of.
  function Received(f: Flight): Bytes
    requires f.Receiving?
  {
    f.msg[..Min(|f.msg|, f.room)]
  }

  // The second half of a receive.
  function EndRecv(s: State, t: nat): State
    requires t in s.flights && s.flights[t].Receiving?
  {
    s.(free := [s.flights[t].node] + s.free, flights := s.flights - {t})
  }

  // rt_mq_control with RT_IPC_CMD_RESET
  function Drained(queue: seq<Cell>, free: seq<nat>): seq<nat> {
    if queue == [] then free else Drained(queue[1..], [queue[0].node] + free)
  }

  function Reset(s: State): State {
    s.(queue := [], free := Drained(s.queue, s.free))
  }

  // --- every node is in exactly one place ------------------------------------------

  ghost predicate Flying(s: State, n: nat) {
    exists t :: t in s.flights && s.flights[t].node == n
  }

  ghost predicate OwnNode(s: State, max: nat, t: nat)
    requires t in s.flights
  {
    var n := s.flights[t].node;
    && n < max && n !in Ids(s.queue) && n !in s.free
    && forall u :: u in s.flights && s.flights[u].node == n ==> u == t
  }

  ghost predicate Somewhere(s: State, n: nat) {
    n in Ids(s.queue) || n in s.free || Flying(s, n)
  }

  ghost predicate Partition(s: State, max: nat) {
    && NoDup(Ids(s.queue)) && NoDup(s.free)
    && (forall i :: 0 <= i < |s.queue| ==> s.queue[i].node < max && s.queue[i].node !in s.free)
    && (forall i :: 0 <= i < |s.free| ==> s.free[i] < max)
    && (forall t :: t in s.flights ==> OwnNode(s, max, t))
    && (forall n: nat :: n < max ==> Somewhere(s, n))
  }

  lemma BeginSendPartition(s: State, max: nat, size: nat, t: nat, msg: Bytes, urgent: bool)
    requires Partition(s, max) && t !in s.flights
    ensures Partition(BeginSend(s, size, t, msg, urgent), max)
  {
    var r := BeginSend(s, size, t, msg, urgent);
    if r != s {
      assert s.free == [s.free[0]] + r.free;
      forall u | u in r.flights ensures OwnNode(r, max, u) {
        if u != t { assert OwnNode(s, max, u); }
        forall v | v in r.flights && r.flights[v].node == r.flights[u].node ensures v == u {
          if v != t { assert OwnNode(s, max, v); }
        }
      }
      forall n: nat | n < max ensures Somewhere(r, n) {
        assert Somewhere(s, n);
        StillFlying(s, r, n, t);
        assert n == s.free[0] ==> r.flights[t].node == n;
      }
    }
  }

  // Flights other than t's go on.
  lemma StillFlying(s: State, r: State, n: nat, t: nat)
    requires forall u :: u in s.flights && u != t ==> u in r.flights && r.flights[u].node == s.flights[u].node
    ensures Flying(s, n) && !(t in s.flights && s.flights[t].node == n) ==> Flying(r, n)
  {
    if Flying(s, n) && !(t in s.flights && s.flights[t].node == n) {
      var u :| u in s.flights && s.flights[u].node == n;
      assert u in r.flights && r.flights[u].node == n;
    }
  }

  lemma EndSendPartition(s: State, max: nat, t: nat)
    requires Partition(s, max) && t in s.flights && s.flights[t].Sending?
    ensures Partition(EndSend(s, t), max)
  {
    var r, n0 := EndSend(s, t), s.flights[t].node;
    assert OwnNode(s, max, t);
    LinkedIds(s, t);
    forall u | u in r.flights ensures OwnNode(r, max, u) { assert OwnNode(s, max, u); }
    forall n: nat | n < max ensures Somewhere(r, n) {
      assert Somewhere(s, n);
      StillFlying(s, r, n, t);
    }
  }

  lemma LinkedIds(s: State, t: nat)
    requires t in s.flights && s.flights[t].Sending?
    ensures var f, r := s.flights[t], EndSend(s, t);
      Ids(r.queue) == if f.urgent then [f.node] + Ids(s.queue) else Ids(s.queue) + [f.node]
  {}

  lemma BeginRecvPartition(s: State, max: nat, t: nat, room: nat)
    requires Partition(s, max) && t !in s.flights
    ensures Partition(BeginRecv(s, t, room), max)
  {
    var r := BeginRecv(s, t, room);
    if r != s {
      assert Ids(s.queue) == [s.queue[0].node] + Ids(r.queue);
      forall u | u in r.flights ensures OwnNode(r, max, u) {
        if u != t { assert OwnNode(s, max, u); }
        forall v | v in r.flights && r.flights[v].node == r.flights[u].node ensures v == u {
          if v != t { assert OwnNode(s, max, v); }
        }
      }
      forall n: nat | n < max ensures Somewhere(r, n) {
        assert Somewhere(s, n);
        StillFlying(s, r, n, t);
        assert n == s.queue[0].node ==> r.flights[t].node == n;
      }
    }
  }

  lemma EndRecvPartition(s: State, max: nat, t: nat)
    requires Partition(s, max) && t in s.flights && s.flights[t].Receiving?
    ensures Partition(EndRecv(s, t), max)
  {
    var r := EndRecv(s, t);
    assert OwnNode(s, max, t);
    forall u | u in r.flights ensures OwnNode(r, max, u) { assert OwnNode(s, max, u); }
    forall n: nat | n < max ensures Somewhere(r, n) {
      assert Somewhere(s, n);
      StillFlying(s, r, n, t);
    }
  }

  lemma RecycledPartition(s: State, max: nat)
    requires Partition(s, max) && s.queue != []
    ensures Partition(s.(queue := s.queue[1..], free := [s.queue[0].node] + s.free), max)
  {
    var s1 := s.(queue := s.queue[1..], free := [s.queue[0].node] + s.free);
    assert Ids(s.queue) == [s.queue[0].node] + Ids(s1.queue);
    forall u | u in s1.flights ensures OwnNode(s1, max, u) { assert OwnNode(s, max, u); }
    forall n: nat | n < max ensures Somewhere(s1, n) {
      assert Somewhere(s, n);
      if Flying(s, n) { var u :| u in s.flights && s.flights[u].node == n; assert u in s1.flights; }
    }
  }

  lemma {:induction false} ResetPartition(s: State, max: nat)
    requires Partition(s, max)
    ensures Partition(Reset(s), max)
    decreases |s.queue|
  {
    if s.queue == [] {
      assert Reset(s) == s;
    } else {
      var s1 := s.(queue := s.queue[1..], free := [s.queue[0].node] + s.free);
      RecycledPartition(s, max);
      ResetPartition(s1, max);
    }
  }

  // Queued, free and in-flight nodes add up to max_msgs.
  ghost predicate Counted(s: State, max: nat) {
    |s.queue| + |s.free| + |s.flights| == max
  }

  lemma LandedCount(flights: map<nat, Flight>, t: nat)
    requires t in flights
    ensures |flights - {t}| == |flights| - 1
  {
    var m := flights - {t};
    assert m.Keys == flights.Keys - {t};
    assert |m| == |m.Keys| && |flights| == |flights.Keys|;
  }

  lemma FlownCount(flights: map<nat, Flight>, t: nat, f: Flight)
    ensures |flights[t := f]| == |flights| + if t in flights then 0 else 1
  {
    var m := flights[t := f];
    assert m.Keys == flights.Keys + {t};
    assert |m| == |m.Keys| && |flights| == |flights.Keys|;
  }

  lemma {:induction false} DrainedCount(queue: seq<Cell>, free: seq<nat>)
    ensures |Drained(queue, free)| == |queue| + |free|
    decreases |queue|
  {
    if queue != [] { DrainedCount(queue[1..], [queue[0].node] + free); }
  }

  // --- runs: all interleavings of any number of threads ------------------------------

  datatype Step = DoBeginSend(t: nat, msg: Bytes, urgent: bool) | DoCopyIn(t: nat) | DoEndSend(t: nat)
    | DoBeginRecv(t: nat, room: nat) | DoEndRecv(t: nat) | DoReset

  ghost predicate Allowed(s: State, step: Step) {
    match step
    case DoBeginSend(t, _, _) => t !in s.flights
    case DoCopyIn(t) => t in s.flights && s.flights[t].Sending?
    case DoEndSend(t) => t in s.flights && s.flights[t].Sending? && s.flights[t].copied
    case DoBeginRecv(t, _) => t !in s.flights
    case DoEndRecv(t) => t in s.flights && s.flights[t].Receiving?
    case DoReset => true
  }

  function Next(s: State, size: nat, step: Step): State
    requires Allowed(s, step)
  {
    match step
    case DoBeginSend(t, msg, urgent) => BeginSend(s, size, t, msg, urgent)
    case DoCopyIn(t) => CopyIn(s, t)
    case DoEndSend(t) => EndSend(s, t)
    case DoBeginRecv(t, room) => BeginRecv(s, t, room)
    case DoEndRecv(t) => EndRecv(s, t)
    case DoReset => Reset(s)
  }

  lemma CopyInPartition(s: State, max: nat, t: nat)
    requires Partition(s, max) && t in s.flights && s.flights[t].Sending?
    ensures Partition(CopyIn(s, t), max)
  {
    var r := CopyIn(s, t);
    forall u | u in r.flights ensures OwnNode(r, max, u) {
      assert OwnNode(s, max, u);
      forall v | v in r.flights && r.flights[v].node == r.flights[u].node ensures v == u { assert OwnNode(s, max, v); }
    }
    forall n: nat | n < max ensures Somewhere(r, n) {
      assert Somewhere(s, n);
      if Flying(s, n) {
        var u :| u in s.flights && s.flights[u].node == n;
        assert u in r.flights && r.flights[u].node == n;
      }
    }
  }

  lemma NextCounted(s: State, size: nat, max: nat, step: Step)
    requires Counted(s, max) && Allowed(s, step)
    ensures Counted(Next(s, size, step), max)
  {
    match step
    case DoBeginSend(t, msg, urgent) =>
      if s.free != [] { FlownCount(s.flights, t, Sending(s.free[0], msg, urgent, false)); }
    case DoCopyIn(t) => FlownCount(s.flights, t, s.flights[t].(copied := true));
    case DoEndSend(t) => LandedCount(s.flights, t);
    case DoBeginRecv(t, room) =>
      if s.queue != [] { FlownCount(s.flights, t, Receiving(s.queue[0].node, s.queue[0].msg, room)); }
    case DoEndRecv(t) => LandedCount(s.flights, t);
    case DoReset => DrainedCount(s.queue, s.free);
  }

  lemma NextPartition(s: State, size: nat, max: nat, step: Step)
    requires Partition(s, max) && Allowed(s, step)
    ensures Partition(Next(s, size, step), max)
  {
    match step
    case DoBeginSend(t, msg, urgent) => BeginSendPartition(s, max, size, t, msg, urgent);
    case DoCopyIn(t) => CopyInPartition(s, max, t);
    case DoEndSend(t) => EndSendPartition(s, max, t);
    case DoBeginRecv(t, room) => BeginRecvPartition(s, max, t, room);
    case DoEndRecv(t) => EndRecvPartition(s, max, t);
    case DoReset => ResetPartition(s, max);
  }

  ghost predicate Legal(s: State, size: nat, steps: seq<Step>)
    decreases |steps|
  {
    steps == [] || (Allowed(s, steps[0]) && Legal(Next(s, size, steps[0]), size, steps[1..]))
  }

  ghost function Run(s: State, size: nat, steps: seq<Step>): State
    requires Legal(s, size, steps)
    decreases |steps|
  {
    if steps == [] then s else Run(Next(s, size, steps[0]), size, steps[1..])
  }

  lemma {:induction false} RunPartition(s: State, size: nat, max: nat, steps: seq<Step>)
    requires Partition(s, max) && Counted(s, max) && Legal(s, size, steps)
    ensures Partition(Run(s, size, steps), max) && Counted(Run(s, size, steps), max)
    decreases |steps|
  {
    if steps != [] {
      NextPartition(s, size, max, steps[0]);
      NextCounted(s, size, max, steps[0]);
      RunPartition(Next(s, size, steps[0]), size, max, steps[1..]);
    }
  }

  // --- the queue is a deque of byte strings ---------------------------------------------

  // What a step does to the deque, if anything.
  ghost function EventOf(s: State, step: Step): seq<Event<Bytes>>
    requires Allowed(s, step)
  {
    match step
    case DoEndSend(t) => if s.flights[t].urgent then [PutFirst(s.flights[t].msg)] else [Put(s.flights[t].msg)]
    case DoBeginRecv(_, _) => if s.queue == [] then [] else [Get(s.queue[0].msg)]
    case DoReset => [Clear]
    case _ => []
  }

  ghost function Events(s: State, size: nat, steps: seq<Step>): seq<Event<Bytes>>
    requires Legal(s, size, steps)
    decreases |steps|
  {
    if steps == [] then []
    else EventOf(s, steps[0]) + Events(Next(s, size, steps[0]), size, steps[1..])
  }

  lemma StepIsDeque(s: State, size: nat, step: Step, more: seq<Event<Bytes>>)
    requires Allowed(s, step)
    ensures Deque(Msgs(s.queue), EventOf(s, step) + more) == Deque(Msgs(Next(s, size, step).queue), more)
  {
    var r, e := Next(s, size, step), EventOf(s, step);
    if e == [] {
      assert e + more == more;
    } else {
      assert (e + more)[0] == e[0] && (e + more)[1..] == more;
      match step
      case DoEndSend(t) =>
        assert Msgs(r.queue) ==
          if s.flights[t].urgent then [s.flights[t].msg] + Msgs(s.queue) else Msgs(s.queue) + [s.flights[t].msg];
      case DoBeginRecv(_, _) => assert Msgs(r.queue) == Msgs(s.queue)[1..];
      case _ =>
    }
  }

  // Under every interleaving of senders, urgent senders, receivers and resets.
  lemma {:induction false} RunIsDeque(s: State, size: nat, steps: seq<Step>)
    requires Legal(s, size, steps)
    ensures Deque(Msgs(s.queue), Events(s, size, steps)) == Some(Msgs(Run(s, size, steps).queue))
    decreases |steps|
  {
    if steps != [] {
      var s1 := Next(s, size, steps[0]);
      RunIsDeque(s1, size, steps[1..]);
      StepIsDeque(s, size, steps[0], Events(s1, size, steps[1..]));
    }
  }

  // Without urgent messages and resets, messages are received in the order in
  // which they were linked.
  lemma MessagesInOrder(s: State, size: nat, steps: seq<Step>)
    requires Legal(s, size, steps) && Fifo(Events(s, size, steps))
    ensures Msgs(s.queue) + Puts(Events(s, size, steps)) ==
      Gets(Events(s, size, steps)) + Msgs(Run(s, size, steps).queue)
  {
    RunIsDeque(s, size, steps);
    FirstInFirstOut(Msgs(s.queue), Events(s, size, steps));
  }

  // --- from the sender's buffer to the receiver's ----------------------------------------

  // Step k of the run ends what thread t is doing with its node.
  ghost predicate Ends(step: Step, t: nat) {
    step == DoEndSend(t) || step == DoEndRecv(t)
  }

  ghost predicate Carries(f: Flight, g: Flight) {
    g == if f.Sending? then f.(copied := g.Sending? && g.copied) else f
  }

  // Until t ends it itself, whatever others do: resets, and messages that overtake.
  lemma {:induction false} FlightStays(s: State, size: nat, steps: seq<Step>, t: nat)
    requires Legal(s, size, steps) && t in s.flights
    requires forall i :: 0 <= i < |steps| ==> !Ends(steps[i], t)
    ensures t in Run(s, size, steps).flights && Carries(s.flights[t], Run(s, size, steps).flights[t])
    decreases |steps|
  {
    if steps != [] {
      assert !Ends(steps[0], t);
      forall i | 0 <= i < |steps[1..]| ensures !Ends(steps[1..][i], t) { assert !Ends(steps[i + 1], t); }
      FlightStays(Next(s, size, steps[0]), size, steps[1..], t);
    }
  }

  // What a receiver copies out, however long that takes it, is the beginning of the
  // message that it took from the front of the deque: all of it if it has the room.
  lemma ReceiptIsGet(s: State, size: nat, t: nat, room: nat, steps: seq<Step>)
    requires t !in s.flights && s.queue != [] && Legal(BeginRecv(s, t, room), size, steps)
    requires forall i :: 0 <= i < |steps| ==> !Ends(steps[i], t)
    ensures var r := Run(BeginRecv(s, t, room), size, steps);
      && t in r.flights && r.flights[t].Receiving?
      && EventOf(s, DoBeginRecv(t, room)) == [Get(Msgs(s.queue)[0])]
      && Received(r.flights[t]) <= Msgs(s.queue)[0]
      && |Received(r.flights[t])| == if |Msgs(s.queue)[0]| <= room then |Msgs(s.queue)[0]| else room
  {
    FlightStays(BeginRecv(s, t, room), size, steps, t);
  }

  // A send that is let alone: the message joins the deque, and takes a node with it.
  lemma SendAlone(s: State, size: nat, t: nat, msg: Bytes, urgent: bool)
    requires t !in s.flights && s.free != [] && |msg| <= size
    ensures var steps := [DoBeginSend(t, msg, urgent), DoCopyIn(t), DoEndSend(t)];
      && Legal(s, size, steps)
      && Msgs(Run(s, size, steps).queue) == (if urgent then [msg] + Msgs(s.queue) else Msgs(s.queue) + [msg])
      && Run(s, size, steps).free == s.free[1..] && Run(s, size, steps).flights == s.flights
  {
    var steps := [DoBeginSend(t, msg, urgent), DoCopyIn(t), DoEndSend(t)];
    var s1 := BeginSend(s, size, t, msg, urgent);
    var s2 := CopyIn(s1, t);
    assert steps[1..] == [DoCopyIn(t), DoEndSend(t)] && steps[1..][1..] == [DoEndSend(t)];
    assert steps[1..][1..][1..] == [];
    assert Next(s, size, steps[0]) == s1 && Next(s1, size, steps[1]) == s2;
    assert Next(s2, size, steps[2]) == EndSend(s2, t);
    assert Legal(s2, size, [DoEndSend(t)]) && Legal(s1, size, [DoCopyIn(t), DoEndSend(t)]);
    assert Run(s, size, steps) == Run(s1, size, steps[1..]) == Run(s2, size, [DoEndSend(t)]) == EndSend(s2, t);
    assert EndSend(s2, t).flights == s.flights;
  }

  // A receive that is let alone: the front message leaves the deque, and its node is free.
  lemma ReceiveAlone(s: State, size: nat, t: nat, room: nat)
    requires t !in s.flights && s.queue != []
    ensures var steps := [DoBeginRecv(t, room), DoEndRecv(t)];
      && Legal(s, size, steps)
      && Msgs(Run(s, size, steps).queue) == Msgs(s.queue)[1..]
      && |Run(s, size, steps).free| == |s.free| + 1 && Run(s, size, steps).flights == s.flights
  {
    var steps := [DoBeginRecv(t, room), DoEndRecv(t)];
    var s1 := BeginRecv(s, t, room);
    assert steps[1..] == [DoEndRecv(t)] && steps[1..][1..] == [];
    assert Next(s, size, steps[0]) == s1 && Next(s1, size, steps[1]) == EndRecv(s1, t);
    assert Legal(s1, size, [DoEndRecv(t)]);
    assert Run(s, size, steps) == Run(s1, size, steps[1..]) == EndRecv(s1, t);
    assert EndRecv(s1, t).flights == s.flights;
  }

  // What joins the deque is what the sender was called with.
  lemma PutIsSent(s: State, size: nat, t: nat, msg: Bytes, urgent: bool, steps: seq<Step>)
    requires t !in s.flights && s.free != [] && |msg| <= size
    requires Legal(BeginSend(s, size, t, msg, urgent), size, steps)
    requires forall i :: 0 <= i < |steps| ==> !Ends(steps[i], t)
    requires Allowed(Run(BeginSend(s, size, t, msg, urgent), size, steps), DoEndSend(t))
    ensures EventOf(Run(BeginSend(s, size, t, msg, urgent), size, steps), DoEndSend(t)) ==
      [if urgent then PutFirst(msg) else Put(msg)]
  {
    FlightStays(BeginSend(s, size, t, msg, urgent), size, steps, t);
  }
}
