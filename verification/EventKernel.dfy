// The event's code: one pass over the suspended threads, with the flags to clear
// collected on the way.

module EventKernel {
  import opened Common
  import opened WaitLists
  import opened EventSet

  datatype Status = Done | Error | Timeout | Sleeps

  class Event {
    var flags: Flags              // event->set
    var waiters: seq<Waiter>     // parent.suspend_thread

    ghost function State(): State
      reads this
    {
      EventSet.State(flags, waiters)
    }

    // rt_event_init
    constructor ()
      ensures State() == EventSet.State({}, [])
    {
      flags, waiters := {}, [];
    }

    // _rt_event_recv up to the point where the thread leaves or is suspended.
    method EventRecv(t: nat, want: Flags, all: bool, any: bool, clear: bool, wait: bool, place: nat)
      returns (status: Status, received: Flags)
      requires all || any
      modifies this
      ensures State() == Receive(old(State()), Waiter(t, want, all, any, clear), wait, place)
      ensures status == Error <==> want == {}
      ensures status == Done <==>
        want != {} && if all then want <= old(flags) else exists f :: f in want && f in old(flags)
      ensures status == Timeout ==> !wait
      ensures status == Sleeps ==> wait
      ensures status == Done ==> received == want * old(flags)
      ensures status == Done ==> waiters == old(waiters) && flags == old(flags) - (if clear then want else {})
    {
      SatisfiedMeans(Waiter(t, want, all, any, clear), flags);
      received := {};
      if want == {} {
        return Error, received;
      }
      var ok := false;
      if all {
        if flags * want == want {
          ok := true;
        }
      } else if any {
        if flags * want != {} {
          ok := true;
        }
      }
      if ok {
        received := flags * want;
        if clear {
          flags := flags - want;
        }
        status := Done;
      } else if !wait {
        status := Timeout;
      } else {
        waiters := Enqueue(waiters, Waiter(t, want, all, any, clear), place);
        status := Sleeps;
      }
    }

    // The pass over the suspended threads: those satisfied leave the list and are
    // resumed; what they take is collected, and not yet cleared.
    method ResumeSatisfied() returns (woken: seq<(nat, Flags)>, needClear: Flags)
      modifies `waiters
      ensures waiters == Kept(old(waiters), flags)
      ensures woken == Woken(old(waiters), flags) && needClear == Cleared(old(waiters), flags)
    {
      woken, needClear := [], {};
      ghost var front, rest := [], waiters;
      var n := 0;
      while n < |waiters|
        invariant waiters == front + rest && n == |front|
        invariant front + Kept(rest, flags) == Kept(old(waiters), flags)
        invariant woken + Woken(rest, flags) == Woken(old(waiters), flags)
        invariant needClear + Cleared(rest, flags) == Cleared(old(waiters), flags)
        decreases |rest|
      {
        var w := waiters[n];
        Visit(front, rest, woken, needClear, flags);
        if Satisfied(w, flags) {
          var received := if w.all then w.want else w.want * flags;
          if w.clear {
            needClear := needClear + received;
          }
          woken := woken + [(w.t, received)];
          waiters := waiters[..n] + waiters[n + 1..];
        } else {
          n := n + 1;
          front := front + [w];
        }
        rest := rest[1..];
      }
    }

    // rt_event_send. `woken` lists the threads resumed, with what each received.
    method EventSend(bits: Flags) returns (ok: bool, woken: seq<(nat, Flags)>)
      requires forall i :: 0 <= i < |waiters| ==> waiters[i].all || waiters[i].any
      modifies this
      ensures ok <==> bits != {}
      ensures State() == Send(old(State()), bits)
      ensures woken == if ok then Woken(old(waiters), old(flags) + bits) else []
      ensures ok ==> forall t: nat, r: Flags :: (t, r) in woken <==>
        exists w :: w in old(waiters) && w.t == t && Met(w, old(flags) + bits) && r == w.want * (old(flags) + bits)
      ensures ok ==> forall w :: w in waiters <==> w in old(waiters) && !Met(w, old(flags) + bits)
    {
      hide Met, Kept, Woken, Cleared;
      woken := [];
      if bits == {} {
        return false, woken;
      }
      ok := true;
      flags := flags + bits;
      var needClear: Flags;
      woken, needClear := ResumeSatisfied();
      SentMeans(old(waiters), flags);
      if needClear != {} {
        flags := flags - needClear;
      }
    }

    // rt_event_control with RT_IPC_CMD_RESET. `woken` lists the threads resumed.
    method EventReset() returns (woken: seq<nat>)
      modifies this
      ensures State() == Reset(old(State())) && flags == {} && waiters == []
      ensures |woken| == |old(waiters)| && forall i :: 0 <= i < |woken| ==> woken[i] == old(waiters)[i].t
    {
      woken := [];
      while waiters != []
        invariant |woken| <= |old(waiters)| && waiters == old(waiters)[|woken|..]
        invariant forall i :: 0 <= i < |woken| ==> woken[i] == old(waiters)[i].t
        decreases |waiters|
      {
        woken := woken + [waiters[0].t];
        waiters := waiters[1..];
      }
      flags := {};
    }
  }

  lemma SentMeans(ws: seq<Waiter>, flags: Flags)
    ensures forall t: nat, r: Flags :: (t, r) in Woken(ws, flags) <==>
      exists w :: w in ws && w.t == t && Met(w, flags) && r == w.want * flags
    ensures forall w :: w in Kept(ws, flags) <==> w in ws && !Met(w, flags)
  {
    forall w: Waiter ensures Satisfied(w, flags) <==> Met(w, flags)
      ensures Satisfied(w, flags) ==> Received(w, flags) == w.want * flags
    {
      SatisfiedMeans(w, flags);
    }
    forall t: nat, r: Flags ensures (t, r) in Woken(ws, flags) <==>
      exists w :: w in ws && w.t == t && Met(w, flags) && r == w.want * flags
    {
      WokenExactly(ws, flags, t, r);
    }
    forall w ensures w in Kept(ws, flags) <==> w in ws && !Met(w, flags) { KeptExactly(ws, flags, w); }
  }

  lemma Attach<T>(a: seq<T>, x: T, b: seq<T>)
    ensures a + ([x] + b) == (a + [x]) + b && a + ([] + b) == a + b
  {
    assert [] + b == b;
  }

  // One turn of that loop: the waiter looked at is rest[0].
  lemma Visit(front: seq<Waiter>, rest: seq<Waiter>, woken: seq<(nat, Flags)>, gone: Flags, flags: Flags)
    requires rest != []
    ensures var w, ws := rest[0], front + rest;
      && ws[|front|] == w && ws[..|front|] + ws[|front| + 1..] == front + rest[1..]
      && (front + [w]) + rest[1..] == ws
    ensures var w := rest[0];
      if Satisfied(w, flags) then
        && front + Kept(rest, flags) == front + Kept(rest[1..], flags)
        && woken + Woken(rest, flags) == (woken + [(w.t, Received(w, flags))]) + Woken(rest[1..], flags)
        && gone + Cleared(rest, flags) ==
          (if w.clear then gone + Received(w, flags) else gone) + Cleared(rest[1..], flags)
      else
        && front + Kept(rest, flags) == (front + [w]) + Kept(rest[1..], flags)
        && woken + Woken(rest, flags) == woken + Woken(rest[1..], flags)
        && gone + Cleared(rest, flags) == gone + Cleared(rest[1..], flags)
  {
    var w := rest[0];
    VisitList(front, rest);
    Attach(front, w, Kept(rest[1..], flags));
    Attach(woken, (w.t, Received(w, flags)), Woken(rest[1..], flags));
  }

  lemma VisitList(front: seq<Waiter>, rest: seq<Waiter>)
    requires rest != []
    ensures var w, ws := rest[0], front + rest;
      && ws[|front|] == w && ws[..|front|] + ws[|front| + 1..] == front + rest[1..]
      && (front + [w]) + rest[1..] == ws
  {
    assert (front + rest)[..|front|] == front && (front + rest)[|front| + 1..] == rest[1..];
    assert rest == [rest[0]] + rest[1..];
    Attach(front, rest[0], rest[1..]);
  }
}
