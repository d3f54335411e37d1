// The event of rt-thread/src/ipc.c: flags, and threads that wait for all or for
// any of some of them. A 32-bit word of flags is the set of its bits: & is
// intersection, | is union, & ~ is difference, and 0 is {}.

module EventSet {
  import opened Common
  import opened WaitLists

  type Flags = set<nat>

  // thread->event_set and thread->event_info
  datatype Waiter = Waiter(t: nat, want: Flags, all: bool, any: bool, clear: bool)

  datatype State = State(flags: Flags, waiters: seq<Waiter>)

  // The test in rt_event_send and in _rt_event_recv: AND is looked at first.
  predicate Satisfied(w: Waiter, flags: Flags) {
    if w.all then w.want * flags == w.want else w.any && w.want * flags != {}
  }

  // What a satisfied waiter receives, and clears if it asked for that.
  function Received(w: Waiter, flags: Flags): Flags {
    if w.all then w.want else w.want * flags
  }

  function Kept(ws: seq<Waiter>, flags: Flags): seq<Waiter> {
    if ws == [] then []
    else (if Satisfied(ws[0], flags) then [] else [ws[0]]) + Kept(ws[1..], flags)
  }

  function Woken(ws: seq<Waiter>, flags: Flags): seq<(nat, Flags)> {
    if ws == [] then []
    else (if Satisfied(ws[0], flags) then [(ws[0].t, Received(ws[0], flags))] else []) + Woken(ws[1..], flags)
  }

  function Cleared(ws: seq<Waiter>, flags: Flags): Flags {
    if ws == [] then {}
    else (if Satisfied(ws[0], flags) && ws[0].clear then Received(ws[0], flags) else {}) + Cleared(ws[1..], flags)
  }

  // rt_event_send
  function Send(s: State, bits: Flags): State {
    if bits == {} then s
    else
      var flags := s.flags + bits;
      State(flags - Cleared(s.waiters, flags), Kept(s.waiters, flags))
  }

  // _rt_event_recv up to the point where the thread leaves or is suspended; the
  // place in the wait list is what rt_susp_list_enqueue finds.
  function Receive(s: State, w: Waiter, wait: bool, place: nat): State {
    if w.want == {} then s
    else if Satisfied(w, s.flags) then
      if w.clear then s.(flags := s.flags - w.want) else s
    else if wait then s.(waiters := Enqueue(s.waiters, w, place))
    else s
  }

  // A suspended thread leaves for another reason: its timer, or a signal.
  function GiveUp(ws: seq<Waiter>, t: nat): seq<Waiter> {
    if ws == [] then [] else (if ws[0].t == t then [] else [ws[0]]) + GiveUp(ws[1..], t)
  }

  // rt_event_control with RT_IPC_CMD_RESET: everybody is resumed, with an error.
  function Reset(s: State): State {
    State({}, [])
  }

  // --- what is waited for -----------------------------------------------------------

  // All flags of one set lie in another, or the two share one.
  ghost predicate Met(w: Waiter, flags: Flags) {
    if w.all then forall f :: f in w.want ==> f in flags else w.any && exists f :: f in w.want && f in flags
  }

  // The test is that all flags wanted are set, or that some is; what is received are
  // the flags that are both wanted and set.
  lemma SatisfiedMeans(w: Waiter, flags: Flags)
    ensures Satisfied(w, flags) <==> Met(w, flags)
    ensures Satisfied(w, flags) ==> forall f :: f in Received(w, flags) <==> f in w.want && f in flags
  {
    if w.all {
      assert Met(w, flags) ==> w.want * flags == w.want;
    } else if Met(w, flags) {
      var f :| f in w.want && f in flags;
      assert f in w.want * flags;
    }
  }

  // --- one send ---------------------------------------------------------------------

  lemma {:induction false} KeptExactly(ws: seq<Waiter>, flags: Flags, w: Waiter)
    ensures w in Kept(ws, flags) <==> w in ws && !Satisfied(w, flags)
  {
    if ws != [] {
      KeptExactly(ws[1..], flags, w);
      assert ws == [ws[0]] + ws[1..];
    }
  }

  lemma {:induction false} WokenExactly(ws: seq<Waiter>, flags: Flags, t: nat, r: Flags)
    ensures (t, r) in Woken(ws, flags) <==>
      exists w :: w in ws && Satisfied(w, flags) && w.t == t && Received(w, flags) == r
  {
    if ws != [] {
      WokenExactly(ws[1..], flags, t, r);
      assert ws == [ws[0]] + ws[1..];
      if (t, r) in Woken(ws[1..], flags) {
        var w :| w in ws[1..] && Satisfied(w, flags) && w.t == t && Received(w, flags) == r;
        assert w in ws;
      }
    }
  }

  ghost predicate Clears(w: Waiter, flags: Flags, flag: nat) {
    Satisfied(w, flags) && w.clear && flag in Received(w, flags)
  }

  lemma {:induction false} ClearedExactly(ws: seq<Waiter>, flags: Flags, flag: nat)
    ensures flag in Cleared(ws, flags) <==> exists i :: 0 <= i < |ws| && Clears(ws[i], flags, flag)
  {
    if ws != [] {
      var rest := ws[1..];
      ClearedExactly(rest, flags, flag);
      if i :| 0 <= i < |rest| && Clears(rest[i], flags, flag) { assert Clears(ws[i + 1], flags, flag); }
      if i :| 0 <= i < |ws| && Clears(ws[i], flags, flag) {
        if i > 0 { assert Clears(rest[i - 1], flags, flag); }
      }
    }
  }

  // One waiter after the other, all judged against the same flags.
  lemma {:induction false} SendInParts(a: seq<Waiter>, b: seq<Waiter>, flags: Flags)
    ensures Kept(a + b, flags) == Kept(a, flags) + Kept(b, flags)
    ensures Woken(a + b, flags) == Woken(a, flags) + Woken(b, flags)
    ensures Cleared(a + b, flags) == Cleared(a, flags) + Cleared(b, flags)
  {
    hide Satisfied, Received;
    if a == [] {
      assert a + b == b;
    } else {
      SendInParts(a[1..], b, flags);
      assert (a + b)[0] == a[0] && (a + b)[1..] == a[1..] + b;
      var k := if Satisfied(a[0], flags) then [] else [a[0]];
      var w := if Satisfied(a[0], flags) then [(a[0].t, Received(a[0], flags))] else [];
      Regroup(k, Kept(a[1..], flags), Kept(b, flags));
      Regroup(w, Woken(a[1..], flags), Woken(b, flags));
    }
  }

  lemma Regroup<T>(a: seq<T>, b: seq<T>, c: seq<T>)
    ensures a + (b + c) == (a + b) + c
  {}

  lemma SendToOne(w: Waiter, flags: Flags)
    ensures Kept([w], flags) == if Met(w, flags) then [] else [w]
    ensures Woken([w], flags) == if Met(w, flags) then [(w.t, w.want * flags)] else []
    ensures Cleared([w], flags) == if Met(w, flags) && w.clear then w.want * flags else {}
  {
    SatisfiedMeans(w, flags);
    assert Satisfied(w, flags) ==> Received(w, flags) == w.want * flags;
  }

  ghost predicate Takes(w: Waiter, flags: Flags, flag: nat) {
    Met(w, flags) && w.clear && flag in w.want
  }

  // After a send exactly those flags are set that were set or sent, and that no
  // woken waiter has taken.
  lemma SendLeaves(s: State, bits: Flags, flag: nat)
    requires bits != {}
    ensures flag in Send(s, bits).flags <==>
      flag in s.flags + bits && forall i :: 0 <= i < |s.waiters| ==> !Takes(s.waiters[i], s.flags + bits, flag)
  {
    var flags := s.flags + bits;
    ClearedExactly(s.waiters, flags, flag);
    forall i | 0 <= i < |s.waiters| && flag in flags
      ensures Clears(s.waiters[i], flags, flag) <==> Takes(s.waiters[i], flags, flag)
    {
      SatisfiedMeans(s.waiters[i], flags);
    }
    if i :| 0 <= i < |s.waiters| && Clears(s.waiters[i], flags, flag) { SatisfiedMeans(s.waiters[i], flags); }
  }

  // A receive that is satisfied takes out what was wanted if it is asked to, and
  // nothing else; one that is not leaves the flags alone, and waits or goes.
  lemma ReceiveLeaves(s: State, w: Waiter, wait: bool, place: nat, flag: nat)
    requires w.want != {}
    ensures var r := Receive(s, w, wait, place);
      && (flag in r.flags <==> flag in s.flags && !(w.clear && Met(w, s.flags) && flag in w.want))
      && (r.waiters == s.waiters <==> Met(w, s.flags) || !wait)
      && (!Met(w, s.flags) && wait ==> r.waiters == Enqueue(s.waiters, w, place) && w in r.waiters)
  {
    SatisfiedMeans(w, s.flags);
    var p := if place <= |s.waiters| then place else |s.waiters|;
    assert Enqueue(s.waiters, w, place)[p] == w && |Enqueue(s.waiters, w, place)| == |s.waiters| + 1;
  }

  // --- every reachable state ----------------------------------------------------------

  // No suspended thread waits for what is there already.
  ghost predicate NobodyOverslept(s: State) {
    forall i :: 0 <= i < |s.waiters| ==> Waits(s, s.waiters[i])
  }

  ghost predicate Waits(s: State, w: Waiter) {
    (w.all || w.any) && w.want != {} && !Satisfied(w, s.flags)
  }

  // Clearing flags satisfies nobody.
  lemma FewerFlags(w: Waiter, flags: Flags, gone: Flags)
    requires !Satisfied(w, flags)
    ensures !Satisfied(w, flags - gone)
  {}

  datatype Step = DoSend(bits: Flags) | DoReceive(w: Waiter, wait: bool, place: nat) | DoGiveUp(t: nat) | DoReset

  // _rt_event_recv asserts that one of the two options is given.
  ghost predicate Allowed(step: Step) {
    step.DoReceive? ==> step.w.all || step.w.any
  }

  function Next(s: State, step: Step): State {
    match step
    case DoSend(bits) => Send(s, bits)
    case DoReceive(w, wait, place) => Receive(s, w, wait, place)
    case DoGiveUp(t) => s.(waiters := GiveUp(s.waiters, t))
    case DoReset => Reset(s)
  }

  lemma SendKeeps(s: State, bits: Flags)
    requires NobodyOverslept(s)
    ensures NobodyOverslept(Send(s, bits))
  {
    var r, flags := Send(s, bits), s.flags + bits;
    if bits != {} {
      forall i | 0 <= i < |r.waiters| ensures Waits(r, r.waiters[i]) {
        var w := r.waiters[i];
        KeptExactly(s.waiters, flags, w);
        assert w in s.waiters;
        FewerFlags(w, flags, Cleared(s.waiters, flags));
      }
    }
  }

  lemma ReceiveKeeps(s: State, w: Waiter, wait: bool, place: nat)
    requires NobodyOverslept(s) && (w.all || w.any)
    ensures NobodyOverslept(Receive(s, w, wait, place))
  {
    var r := Receive(s, w, wait, place);
    forall i | 0 <= i < |r.waiters| ensures Waits(r, r.waiters[i]) {
      if r.waiters[i] in s.waiters { FewerFlags(r.waiters[i], s.flags, w.want); }
    }
  }

  lemma {:induction false} GiveUpSubset(ws: seq<Waiter>, t: nat, w: Waiter)
    ensures w in GiveUp(ws, t) <==> w in ws && w.t != t
  {
    if ws != [] {
      GiveUpSubset(ws[1..], t, w);
      assert ws == [ws[0]] + ws[1..];
    }
  }

  function Run(s: State, steps: seq<Step>): State
    decreases |steps|
  {
    if steps == [] then s else Run(Next(s, steps[0]), steps[1..])
  }

  lemma {:induction false} RunKeeps(s: State, steps: seq<Step>)
    requires NobodyOverslept(s) && forall i :: 0 <= i < |steps| ==> Allowed(steps[i])
    ensures NobodyOverslept(Run(s, steps))
    decreases |steps|
  {
    if steps != [] {
      var r := Next(s, steps[0]);
      assert Allowed(steps[0]);
      match steps[0] {
        case DoSend(bits) => SendKeeps(s, bits);
        case DoReceive(w, wait, place) => ReceiveKeeps(s, w, wait, place);
        case DoGiveUp(t) =>
          forall i | 0 <= i < |r.waiters| ensures Waits(r, r.waiters[i]) { GiveUpSubset(s.waiters, t, r.waiters[i]); }
        case DoReset =>
      }
      forall i | 0 <= i < |steps[1..]| ensures Allowed(steps[1..][i]) { assert Allowed(steps[i + 1]); }
      RunKeeps(r, steps[1..]);
    }
  }

  // From an event just created, after any calls at all: a thread that waits for all
  // of its flags lacks one, and one that waits for any of them has none.
  lemma NoMissedEvent(steps: seq<Step>, w: Waiter)
    requires forall i :: 0 <= i < |steps| ==> Allowed(steps[i])
    requires w in Run(State({}, []), steps).waiters
    ensures var flags := Run(State({}, []), steps).flags;
      if w.all then exists f :: f in w.want && f !in flags else forall f :: f in w.want ==> f !in flags
  {
    RunKeeps(State({}, []), steps);
    var s := Run(State({}, []), steps);
    SatisfiedMeans(w, s.flags);
    var i :| 0 <= i < |s.waiters| && s.waiters[i] == w;
    assert Waits(s, s.waiters[i]);
  }
}
