// Blocking on the message queue of rt-thread/src/ipc.c: the threads suspended on
// it, and the threads woken that have not run since. A sender may sleep while
// nodes are in flight, in neither the queue nor the free list.

module MsgQueueWaits {
  import opened Common
  import opened WaitLists
  import Q = MsgQueue

  datatype State = State(q: Q.State,
    receivers: seq<nat>, senders: seq<nat>, wokenReceivers: set<nat>, wokenSenders: set<nat>)

  // rt_susp_list_dequeue on the receivers, if there are any
  function WakeReceiver(s: State): State {
    if s.receivers == [] then s
    else s.(receivers := s.receivers[1..], wokenReceivers := s.wokenReceivers + {s.receivers[0]})
  }

  function WakeSender(s: State): State {
    if s.senders == [] then s
    else s.(senders := s.senders[1..], wokenSenders := s.wokenSenders + {s.senders[0]})
  }

  // A sender at the head of the loop of _rt_mq_send_wait, on arrival or woken, and
  // rt_mq_urgent, which does not wait. With no free node it leaves, or is suspended.
  function SendTurn(s: State, size: nat, t: nat, msg: Q.Bytes, urgent: bool, wait: bool, place: nat): State {
    if |msg| > size then s
    else
      var r := s.(wokenSenders := s.wokenSenders - {t});
      if s.q.free != [] then r.(q := Q.BeginSend(s.q, size, t, msg, urgent))
      else if wait then r.(senders := Enqueue(s.senders, t, place))
      else r
  }

  // The message is linked, and a receiver woken.
  function FinishSend(s: State, t: nat): State
    requires t in s.q.flights && s.q.flights[t].Sending?
  {
    WakeReceiver(s.(q := Q.EndSend(s.q, t)))
  }

  // A receiver at the head of the loop of _rt_mq_recv
  function RecvTurn(s: State, t: nat, room: nat, wait: bool, place: nat): State {
    var r := s.(wokenReceivers := s.wokenReceivers - {t});
    if s.q.queue != [] then r.(q := Q.BeginRecv(s.q, t, room))
    else if wait then r.(receivers := Enqueue(s.receivers, t, place))
    else r
  }

  // The node is free again, and a sender woken.
  function FinishRecv(s: State, t: nat): State
    requires t in s.q.flights && s.q.flights[t].Receiving?
  {
    WakeSender(s.(q := Q.EndRecv(s.q, t)))
  }

  // A suspended thread leaves for another reason: its timer, or a signal.
  function GiveUp(s: State, t: nat): State {
    s.(receivers := Remove(s.receivers, t), senders := Remove(s.senders, t))
  }

  // rt_mq_control with RT_IPC_CMD_RESET
  function Reset(s: State): State {
    s.(q := Q.Reset(s.q), receivers := [], senders := [])
  }

  // --- steps -----------------------------------------------------------------------

  datatype Step = DoSend(t: nat, msg: Q.Bytes, urgent: bool, wait: bool, place: nat) | DoCopyIn(t: nat)
    | DoFinishSend(t: nat) | DoRecv(t: nat, room: nat, wait: bool, place: nat) | DoFinishRecv(t: nat)
    | DoGiveUp(t: nat) | DoReset

  // A thread that is suspended does nothing, and one that was woken goes on with
  // what it was doing.
  ghost predicate Allowed(s: State, size: nat, step: Step) {
    match step
    case DoSend(t, msg, urgent, wait, _) =>
      && t !in s.q.flights && t !in s.receivers && t !in s.senders && t !in s.wokenReceivers
      && (urgent ==> !wait && t !in s.wokenSenders)
      && (t in s.wokenSenders ==> |msg| <= size)
    case DoCopyIn(t) => Q.Allowed(s.q, Q.DoCopyIn(t))
    case DoFinishSend(t) => Q.Allowed(s.q, Q.DoEndSend(t))
    case DoRecv(t, _, _, _) =>
      t !in s.q.flights && t !in s.receivers && t !in s.senders && t !in s.wokenSenders
    case DoFinishRecv(t) => Q.Allowed(s.q, Q.DoEndRecv(t))
    case DoGiveUp(_) => true
    case DoReset => true
  }

  function Next(s: State, size: nat, step: Step): State
    requires Allowed(s, size, step)
  {
    match step
    case DoSend(t, msg, urgent, wait, place) => SendTurn(s, size, t, msg, urgent, wait, place)
    case DoCopyIn(t) => s.(q := Q.CopyIn(s.q, t))
    case DoFinishSend(t) => FinishSend(s, t)
    case DoRecv(t, room, wait, place) => RecvTurn(s, t, room, wait, place)
    case DoFinishRecv(t) => FinishRecv(s, t)
    case DoGiveUp(t) => GiveUp(s, t)
    case DoReset => Reset(s)
  }

  ghost predicate Legal(s: State, size: nat, steps: seq<Step>)
    decreases |steps|
  {
    steps == [] || (Allowed(s, size, steps[0]) && Legal(Next(s, size, steps[0]), size, steps[1..]))
  }

  ghost function Run(s: State, size: nat, steps: seq<Step>): State
    requires Legal(s, size, steps)
    decreases |steps|
  {
    if steps == [] then s else Run(Next(s, size, steps[0]), size, steps[1..])
  }

  // --- the queue underneath ------------------------------------------------------------

  // What a step does to the nodes, if anything.
  function Projected(step: Step): seq<Q.Step> {
    match step
    case DoSend(t, msg, urgent, _, _) => [Q.DoBeginSend(t, msg, urgent)]
    case DoCopyIn(t) => [Q.DoCopyIn(t)]
    case DoFinishSend(t) => [Q.DoEndSend(t)]
    case DoRecv(t, room, _, _) => [Q.DoBeginRecv(t, room)]
    case DoFinishRecv(t) => [Q.DoEndRecv(t)]
    case DoGiveUp(_) => []
    case DoReset => [Q.DoReset]
  }

  function AllProjected(steps: seq<Step>): seq<Q.Step> {
    if steps == [] then [] else Projected(steps[0]) + AllProjected(steps[1..])
  }

  lemma NextProjects(s: State, size: nat, step: Step)
    requires Allowed(s, size, step)
    ensures var p := Projected(step);
      if p == [] then Next(s, size, step).q == s.q
      else Q.Allowed(s.q, p[0]) && Next(s, size, step).q == Q.Next(s.q, size, p[0])
  {}

  // With blocking, the nodes do what they do in the runs of MsgQueue: all that is
  // proved of those holds here.
  lemma {:induction false} RunProjects(s: State, size: nat, steps: seq<Step>)
    requires Legal(s, size, steps)
    ensures Q.Legal(s.q, size, AllProjected(steps))
    ensures Run(s, size, steps).q == Q.Run(s.q, size, AllProjected(steps))
    decreases |steps|
  {
    if steps != [] {
      var p, rest := Projected(steps[0]), AllProjected(steps[1..]);
      NextProjects(s, size, steps[0]);
      RunProjects(Next(s, size, steps[0]), size, steps[1..]);
      if p == [] { assert p + rest == rest; } else { assert (p + rest)[0] == p[0] && (p + rest)[1..] == rest; }
    }
  }

  // --- no wake-up is lost ------------------------------------------------------------------

  // Nobody is in two places.
  ghost predicate Apart(s: State) {
    && NoDup(s.receivers) && NoDup(s.senders)
    && (forall t :: t in s.wokenReceivers ==> t !in s.receivers)
    && (forall t :: t in s.wokenSenders ==> t !in s.senders)
  }

  // A receiver sleeps only if every message has a woken receiver coming for it, a
  // sender only if every free node has a woken sender.
  ghost predicate Served(s: State) {
    && (s.receivers != [] ==> |s.q.queue| <= |s.wokenReceivers|)
    && (s.senders != [] ==> |s.q.free| <= |s.wokenSenders|)
  }

  lemma WakeApart(s: State)
    requires Apart(s)
    ensures Apart(WakeReceiver(s)) && Apart(WakeSender(s))
  {
    if s.receivers != [] { assert s.receivers == [s.receivers[0]] + s.receivers[1..]; }
    if s.senders != [] { assert s.senders == [s.senders[0]] + s.senders[1..]; }
  }

  lemma NextApart(s: State, size: nat, step: Step)
    requires Apart(s) && Allowed(s, size, step)
    ensures Apart(Next(s, size, step))
  {
    match step
    case DoSend(t, msg, urgent, wait, place) => EnqueueNoDup(s.senders, t, place);
    case DoCopyIn(t) =>
    case DoFinishSend(t) => WakeApart(s.(q := Q.EndSend(s.q, t)));
    case DoRecv(t, room, wait, place) => EnqueueNoDup(s.receivers, t, place);
    case DoFinishRecv(t) => WakeApart(s.(q := Q.EndRecv(s.q, t)));
    case DoGiveUp(t) =>
      RemoveNoDup(s.receivers, t);
      RemoveNoDup(s.senders, t);
    case DoReset =>
  }

  lemma NextServed(s: State, size: nat, step: Step)
    requires Apart(s) && Served(s) && Allowed(s, size, step)
    ensures Served(Next(s, size, step))
  {
    match step
    case DoGiveUp(t) =>
      assert Remove(s.receivers, t) != [] ==> s.receivers != [];
      assert Remove(s.senders, t) != [] ==> s.senders != [];
    case _ =>
  }

  lemma {:induction false} RunServed(s: State, size: nat, steps: seq<Step>)
    requires Apart(s) && Served(s) && Legal(s, size, steps)
    ensures Apart(Run(s, size, steps)) && Served(Run(s, size, steps))
    decreases |steps|
  {
    if steps != [] {
      NextApart(s, size, steps[0]);
      NextServed(s, size, steps[0]);
      RunServed(Next(s, size, steps[0]), size, steps[1..]);
    }
  }

  function Idle(free: seq<nat>): State {
    State(Q.State([], free, map[]), [], [], {}, {})
  }

  // The theorem: whatever threads do to a message queue, and however messages and
  // nodes are stolen from woken threads, once all woken threads have run a receiver
  // still suspended finds no message, and a sender still suspended finds no node
  // free: all of them are queued or in flight. If there are both, all nodes are in
  // flight, and each of them wakes somebody when it lands.
  lemma NoLostWakeup(free: seq<nat>, max: nat, size: nat, steps: seq<Step>)
    requires Q.Partition(Idle(free).q, max) && |free| == max && Legal(Idle(free), size, steps)
    ensures var s := Run(Idle(free), size, steps);
      && (s.wokenReceivers == {} && s.receivers != [] ==> s.q.queue == [])
      && (s.wokenSenders == {} && s.senders != [] ==> s.q.free == [] && |s.q.queue| + |s.q.flights| == max)
      && (s.wokenReceivers == {} && s.wokenSenders == {} && s.receivers != [] && s.senders != [] ==>
            |s.q.flights| == max)
  {
    RunServed(Idle(free), size, steps);
    RunProjects(Idle(free), size, steps);
    Q.RunPartition(Idle(free).q, size, max, AllProjected(steps));
  }

  // --- who is woken --------------------------------------------------------------------

  // A message linked wakes the receiver at the head of its list, a node freed the
  // sender at the head of its list; nothing else wakes anybody.
  lemma NextWakes(s: State, size: nat, step: Step)
    requires Allowed(s, size, step)
    ensures var r := Next(s, size, step);
      && (if step.DoFinishSend? then HeadWoken(s.receivers, s.wokenReceivers, r.receivers, r.wokenReceivers)
          else r.wokenReceivers == s.wokenReceivers - (if step.DoRecv? then {step.t} else {}))
      && (if step.DoFinishRecv? then HeadWoken(s.senders, s.wokenSenders, r.senders, r.wokenSenders)
          else r.wokenSenders == s.wokenSenders - (if step.DoSend? && |step.msg| <= size then {step.t} else {}))
      && (step.DoSend? ==>
            && r.receivers == s.receivers
            && r.senders == if |step.msg| <= size && s.q.free == [] && step.wait
                            then Enqueue(s.senders, step.t, step.place) else s.senders)
      && (step.DoRecv? ==>
            && r.senders == s.senders
            && r.receivers == if s.q.queue == [] && step.wait
                              then Enqueue(s.receivers, step.t, step.place) else s.receivers)
      && (step.DoReset? ==> r.receivers == [] && r.senders == [])
      && (step.DoGiveUp? ==>
            && (forall u :: u != step.t ==>
                  (u in r.receivers <==> u in s.receivers) && (u in r.senders <==> u in s.senders))
            && (Apart(s) ==> step.t !in r.receivers && step.t !in r.senders))
  {
    if step.DoGiveUp? && Apart(s) {
      RemoveNoDup(s.receivers, step.t);
      RemoveNoDup(s.senders, step.t);
    }
  }
}
