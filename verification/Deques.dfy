// The double-ended queue that mailboxes and message queues are to their users.

module Deques {
  import opened Common

  datatype Event<T> = Put(msg: T) | PutFirst(msg: T) | Get(msg: T) | Clear

  // A deque that has been through these events; to get anything but the front is
  // impossible.
  function Deque<T(==)>(q: seq<T>, events: seq<Event<T>>): Option<seq<T>>
    decreases |events|
  {
    if events == [] then Some(q)
    else match events[0]
      case Put(m) => Deque(q + [m], events[1..])
      case PutFirst(m) => Deque([m] + q, events[1..])
      case Get(m) => if q == [] || q[0] != m then None else Deque(q[1..], events[1..])
      case Clear => Deque([], events[1..])
  }

  // Nothing urgent, and no reset.
  ghost predicate Fifo<T>(events: seq<Event<T>>) {
    forall i :: 0 <= i < |events| ==> events[i].Put? || events[i].Get?
  }

  function Puts<T>(events: seq<Event<T>>): seq<T> {
    if events == [] then []
    else (if events[0].Put? then [events[0].msg] else []) + Puts(events[1..])
  }

  function Gets<T>(events: seq<Event<T>>): seq<T> {
    if events == [] then []
    else (if events[0].Get? then [events[0].msg] else []) + Gets(events[1..])
  }

  // First in, first out: what was there and what was put is what has been got,
  // and then what is still there.
  lemma {:induction false} FirstInFirstOut<T>(q: seq<T>, events: seq<Event<T>>)
    requires Fifo(events) && Deque(q, events).Some?
    ensures q + Puts(events) == Gets(events) + Deque(q, events).value
    decreases |events|
  {
    if events == [] {
      assert q + [] == q && [] + q == q;
    } else {
      var e, rest := events[0], events[1..];
      var p, g := Puts(rest), Gets(rest);
      if e.Put? {
        FirstInFirstOut(q + [e.msg], rest);
        PutMoves(q, e.msg, p);
        assert [] + g == g;
      } else {
        FirstInFirstOut(q[1..], rest);
        var v := Deque(q[1..], rest).value;
        GetMoves(q, p, g, v);
        assert [] + p == p;
      }
    }
  }

  lemma PutMoves<T>(q: seq<T>, m: T, p: seq<T>)
    ensures q + ([m] + p) == (q + [m]) + p
  {}

  lemma GetMoves<T>(q: seq<T>, p: seq<T>, g: seq<T>, v: seq<T>)
    requires q != [] && q[1..] + p == g + v
    ensures q + p == ([q[0]] + g) + v
  {
    assert q + p == [q[0]] + (q[1..] + p);
    assert [q[0]] + (g + v) == ([q[0]] + g) + v;
  }
}
