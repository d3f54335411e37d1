// The mailbox of rt-thread/src/ipc.c as a transition system: the mails, the
// threads suspended on it, and the threads woken that have not run since. One
// step is one critical section under the mailbox lock.

module Mailbox {
  import opened Common
  import opened Deques
  import opened WaitLists

  // `mails` from the front. The order of the wait lists is that of
  // rt_susp_list_enqueue; steps are given the place it finds.
  datatype State = State(mails: seq<int>, size: nat,
    receivers: seq<nat>, senders: seq<nat>, wokenReceivers: set<nat>, wokenSenders: set<nat>)

  // rt_susp_list_dequeue on the receivers, if there are any
  function WakeReceiver(s: State): State {
    if s.receivers == [] then s
    else s.(receivers := s.receivers[1..], wokenReceivers := s.wokenReceivers + {s.receivers[0]})
  }

  function WakeSender(s: State): State {
    if s.senders == [] then s
    else s.(senders := s.senders[1..], wokenSenders := s.wokenSenders + {s.senders[0]})
  }

  // A sender at the head of the loop of _rt_mb_send_wait: on arrival, or woken.
  // With a full box it leaves at once, or is suspended.
  function Send(s: State, t: nat, value: int, wait: bool, place: nat): State {
    var r := s.(wokenSenders := s.wokenSenders - {t});
    if |s.mails| < s.size then WakeReceiver(r.(mails := s.mails + [value]))
    else if wait then r.(senders := Enqueue(s.senders, t, place))
    else r
  }

  // rt_mb_urgent
  function Urgent(s: State, value: int): State {
    if |s.mails| < s.size then WakeReceiver(s.(mails := [value] + s.mails)) else s
  }

  // A receiver at the head of the loop of _rt_mb_recv
  function Receive(s: State, t: nat, wait: bool, place: nat): State {
    var r := s.(wokenReceivers := s.wokenReceivers - {t});
    if s.mails != [] then WakeSender(r.(mails := s.mails[1..]))
    else if wait then r.(receivers := Enqueue(s.receivers, t, place))
    else r
  }

  // A suspended thread leaves for another reason: its timer, or a signal.
  function GiveUp(s: State, t: nat): State {
    s.(receivers := Remove(s.receivers, t), senders := Remove(s.senders, t))
  }

  // rt_mb_control with RT_IPC_CMD_RESET
  function Reset(s: State): State {
    s.(mails := [], receivers := [], senders := [])
  }

  // --- no wake-up is lost ---------------------------------------------------------

  // Nobody is in two places.
  ghost predicate Apart(s: State) {
    && NoDup(s.receivers) && NoDup(s.senders)
    && (forall t :: t in s.wokenReceivers ==> t !in s.receivers)
    && (forall t :: t in s.wokenSenders ==> t !in s.senders)
  }

  // A receiver sleeps only if every mail has a woken receiver coming for it, a
  // sender only if every free place has.
  ghost predicate Served(s: State) {
    && |s.mails| <= s.size
    && (s.receivers != [] ==> |s.mails| <= |s.wokenReceivers|)
    && (s.senders != [] ==> s.size - |s.mails| <= |s.wokenSenders|)
  }

  datatype Step = DoSend(t: nat, value: int, wait: bool, place: nat) | DoUrgent(value: int)
    | DoReceive(t: nat, wait: bool, place: nat) | DoGiveUp(t: nat) | DoReset

  // A thread that is suspended does nothing.
  ghost predicate Allowed(s: State, step: Step) {
    match step
    case DoSend(t, _, _, _) => t !in s.receivers && t !in s.senders && t !in s.wokenReceivers
    case DoReceive(t, _, _) => t !in s.receivers && t !in s.senders && t !in s.wokenSenders
    case _ => true
  }

  function Next(s: State, step: Step): State {
    match step
    case DoSend(t, value, wait, place) => Send(s, t, value, wait, place)
    case DoUrgent(value) => Urgent(s, value)
    case DoReceive(t, wait, place) => Receive(s, t, wait, place)
    case DoGiveUp(t) => GiveUp(s, t)
    case DoReset => Reset(s)
  }

  lemma WakeApart(s: State)
    requires Apart(s)
    ensures Apart(WakeReceiver(s)) && Apart(WakeSender(s))
  {
    if s.receivers != [] { assert s.receivers == [s.receivers[0]] + s.receivers[1..]; }
    if s.senders != [] { assert s.senders == [s.senders[0]] + s.senders[1..]; }
  }

  lemma NextApart(s: State, step: Step)
    requires Apart(s) && Allowed(s, step)
    ensures Apart(Next(s, step))
  {
    match step
    case DoSend(t, value, wait, place) =>
      EnqueueNoDup(s.senders, t, place);
      WakeApart(s.(wokenSenders := s.wokenSenders - {t}, mails := s.mails + [value]));
    case DoUrgent(value) => WakeApart(s.(mails := [value] + s.mails));
    case DoReceive(t, wait, place) =>
      EnqueueNoDup(s.receivers, t, place);
      if s.mails != [] { WakeApart(s.(wokenReceivers := s.wokenReceivers - {t}, mails := s.mails[1..])); }
    case DoGiveUp(t) =>
      RemoveNoDup(s.receivers, t);
      RemoveNoDup(s.senders, t);
    case DoReset =>
  }

  lemma NextServed(s: State, step: Step)
    requires Apart(s) && Served(s) && Allowed(s, step)
    ensures Served(Next(s, step))
  {
    match step
    case DoGiveUp(t) =>
      assert Remove(s.receivers, t) != [] ==> s.receivers != [];
      assert Remove(s.senders, t) != [] ==> s.senders != [];
    case _ =>
  }

  ghost predicate Legal(s: State, steps: seq<Step>)
    decreases |steps|
  {
    steps == [] || (Allowed(s, steps[0]) && Legal(Next(s, steps[0]), steps[1..]))
  }

  function Run(s: State, steps: seq<Step>): State
    decreases |steps|
  {
    if steps == [] then s else Run(Next(s, steps[0]), steps[1..])
  }

  function Empty(size: nat): State {
    State([], size, [], [], {}, {})
  }

  lemma {:induction false} RunServed(s: State, steps: seq<Step>)
    requires Apart(s) && Served(s) && Legal(s, steps)
    ensures Apart(Run(s, steps)) && Served(Run(s, steps)) && Run(s, steps).size == s.size
    decreases |steps|
  {
    if steps != [] {
      NextApart(s, steps[0]);
      NextServed(s, steps[0]);
      RunServed(Next(s, steps[0]), steps[1..]);
    }
  }

  // The theorem: whatever threads do to a mailbox, and however mails are stolen
  // from woken receivers, once all woken threads have run a receiver still
  // suspended finds the box empty, a sender still suspended finds it full, and
  // there are not both.
  lemma NoLostWakeup(size: nat, steps: seq<Step>)
    requires size > 0 && Legal(Empty(size), steps)
    ensures var s := Run(Empty(size), steps);
      && (s.wokenReceivers == {} && s.receivers != [] ==> s.mails == [])
      && (s.wokenSenders == {} && s.senders != [] ==> |s.mails| == size)
      && (s.wokenReceivers == {} && s.wokenSenders == {} ==> s.receivers == [] || s.senders == [])
  {
    RunServed(Empty(size), steps);
  }

  // --- the box is a bounded deque -----------------------------------------------------

  function EventOf(s: State, step: Step): seq<Event<int>> {
    match step
    case DoSend(_, value, _, _) => if |s.mails| < s.size then [Put(value)] else []
    case DoUrgent(value) => if |s.mails| < s.size then [PutFirst(value)] else []
    case DoReceive(_, _, _) => if s.mails == [] then [] else [Get(s.mails[0])]
    case DoGiveUp(_) => []
    case DoReset => [Clear]
  }

  function Events(s: State, steps: seq<Step>): seq<Event<int>>
    decreases |steps|
  {
    if steps == [] then [] else EventOf(s, steps[0]) + Events(Next(s, steps[0]), steps[1..])
  }

  lemma StepIsDeque(s: State, step: Step, more: seq<Event<int>>)
    ensures Deque(s.mails, EventOf(s, step) + more) == Deque(Next(s, step).mails, more)
  {
    var e := EventOf(s, step);
    if e == [] { assert e + more == more; }
    else { assert (e + more)[0] == e[0] && (e + more)[1..] == more; }
  }

  lemma {:induction false} RunIsDeque(s: State, steps: seq<Step>)
    ensures Deque(s.mails, Events(s, steps)) == Some(Run(s, steps).mails)
    decreases |steps|
  {
    if steps != [] {
      var s1 := Next(s, steps[0]);
      RunIsDeque(s1, steps[1..]);
      StepIsDeque(s, steps[0], Events(s1, steps[1..]));
    }
  }

  // Without urgent mails and resets the box is first in, first out.
  lemma MailsInOrder(s: State, steps: seq<Step>)
    requires Fifo(Events(s, steps))
    ensures s.mails + Puts(Events(s, steps)) == Gets(Events(s, steps)) + Run(s, steps).mails
  {
    RunIsDeque(s, steps);
    FirstInFirstOut(s.mails, Events(s, steps));
  }

  // --- who is woken --------------------------------------------------------------------

  // A mail that comes in wakes the receiver at the head of its list, and a mail that
  // goes out the sender at the head of its list; nothing else wakes anybody.
  lemma NextWakes(s: State, step: Step)
    ensures var r := Next(s, step);
      match step
      case DoSend(t, _, wait, place) =>
        if |s.mails| < s.size then
          && HeadWoken(s.receivers, s.wokenReceivers, r.receivers, r.wokenReceivers)
          && r.senders == s.senders && r.wokenSenders == s.wokenSenders - {t}
        else
          && r.receivers == s.receivers && r.wokenReceivers == s.wokenReceivers
          && r.senders == (if wait then Enqueue(s.senders, t, place) else s.senders)
          && r.wokenSenders == s.wokenSenders - {t}
      case DoUrgent(_) =>
        && r.senders == s.senders && r.wokenSenders == s.wokenSenders
        && if |s.mails| < s.size then HeadWoken(s.receivers, s.wokenReceivers, r.receivers, r.wokenReceivers)
           else r == s
      case DoReceive(t, wait, place) =>
        if s.mails != [] then
          && HeadWoken(s.senders, s.wokenSenders, r.senders, r.wokenSenders)
          && r.receivers == s.receivers && r.wokenReceivers == s.wokenReceivers - {t}
        else
          && r.senders == s.senders && r.wokenSenders == s.wokenSenders
          && r.receivers == (if wait then Enqueue(s.receivers, t, place) else s.receivers)
          && r.wokenReceivers == s.wokenReceivers - {t}
      case DoGiveUp(t) =>
        && r.wokenReceivers == s.wokenReceivers && r.wokenSenders == s.wokenSenders
        && r.mails == s.mails
        && (forall u :: u != t ==> (u in r.receivers <==> u in s.receivers) && (u in r.senders <==> u in s.senders))
        && (Apart(s) ==> t !in r.receivers && t !in r.senders)
      case DoReset => r.receivers == [] && r.senders == []
  {
    if step.DoGiveUp? && Apart(s) {
      RemoveNoDup(s.receivers, step.t);
      RemoveNoDup(s.senders, step.t);
    }
  }

  // The receiver that a step suspends.
  ghost function SleptIn(s: State, step: Step): seq<nat> {
    if step.DoReceive? && step.wait && s.mails == [] then [step.t] else []
  }

  // The receivers that are woken after the step and were not before.
  ghost predicate NewlyWoken(s: State, step: Step, u: nat) {
    u in Next(s, step).wokenReceivers && u !in s.wokenReceivers
  }

  ghost function WokenIn(s: State, step: Step): seq<nat> {
    if u: nat :| NewlyWoken(s, step, u) then [u] else []
  }

  // First come, first served, and nobody leaves early.
  ghost predicate InTurn(s: State, step: Step) {
    && !step.DoReset? && (step.DoGiveUp? ==> step.t !in s.receivers)
    && (step.DoReceive? ==> step.place >= |s.receivers|)
  }

  ghost predicate AllInTurn(s: State, steps: seq<Step>)
    decreases |steps|
  {
    steps == [] || (InTurn(s, steps[0]) && AllInTurn(Next(s, steps[0]), steps[1..]))
  }

  ghost function Slept(s: State, steps: seq<Step>): seq<nat>
    decreases |steps|
  {
    if steps == [] then [] else SleptIn(s, steps[0]) + Slept(Next(s, steps[0]), steps[1..])
  }

  ghost function WokenUp(s: State, steps: seq<Step>): seq<nat>
    decreases |steps|
  {
    if steps == [] then [] else WokenIn(s, steps[0]) + WokenUp(Next(s, steps[0]), steps[1..])
  }

  lemma StepInTurn(s: State, step: Step)
    requires Apart(s) && Allowed(s, step) && InTurn(s, step)
    ensures s.receivers + SleptIn(s, step) == WokenIn(s, step) + Next(s, step).receivers
  {
    NextWakes(s, step);
    var r := Next(s, step);
    if WokenIn(s, step) != [] {
      var u := WokenIn(s, step)[0];
      assert NewlyWoken(s, step, u);
      assert s.receivers != [] && u == s.receivers[0];
    } else if s.receivers != [] {
      assert !NewlyWoken(s, step, s.receivers[0]);
    }
  }

  // With a first-come-first-served wait list, receivers are woken in the order in
  // which they went to sleep.
  lemma {:induction false} WokenInOrder(s: State, steps: seq<Step>)
    requires Apart(s) && Legal(s, steps) && AllInTurn(s, steps)
    ensures s.receivers + Slept(s, steps) == WokenUp(s, steps) + Run(s, steps).receivers
    decreases |steps|
  {
    hide Next, WokenIn, SleptIn;
    if steps == [] {
      assert s.receivers + [] == [] + s.receivers;
    } else {
      var r := Next(s, steps[0]);
      NextApart(s, steps[0]);
      StepInTurn(s, steps[0]);
      WokenInOrder(r, steps[1..]);
      Shuffle(s.receivers, SleptIn(s, steps[0]), Slept(r, steps[1..]),
        WokenIn(s, steps[0]), r.receivers, WokenUp(r, steps[1..]), Run(r, steps[1..]).receivers);
    }
  }

  lemma Shuffle(q: seq<nat>, a: seq<nat>, as': seq<nat>, w: seq<nat>, p: seq<nat>, ws: seq<nat>, e: seq<nat>)
    requires q + a == w + p && p + as' == ws + e
    ensures q + (a + as') == (w + ws) + e
  {
    assert q + (a + as') == (q + a) + as';
    assert (w + p) + as' == w + (p + as');
    assert w + (ws + e) == (w + ws) + e;
  }
}
