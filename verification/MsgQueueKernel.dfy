// The message queue's code: nodes linked in place through the pool, and the
// critical sections of rt_mq_send, rt_mq_urgent, rt_mq_recv and rt_mq_control.

module MsgQueueKernel {
  import opened Common
  import opened MsgQueue

  const NIL: int := -1                 // RT_NULL
  const ENTRY_MAX: nat := 65535        // RT_MQ_ENTRY_MAX

  // struct rt_mq_message and the msg_size bytes behind it
  datatype Node = Node(next: int, length: nat, data: Bytes)

  // The list that starts at `first`.
  ghost predicate LinkAt(nodes: seq<Node>, ids: seq<nat>, i: nat)
    requires i < |ids|
  {
    ids[i] < |nodes| && nodes[ids[i]].next == if i + 1 < |ids| then ids[i + 1] else NIL
  }

  ghost predicate Chain(nodes: seq<Node>, first: int, ids: seq<nat>) {
    && first == (if ids == [] then NIL else ids[0])
    && forall i :: 0 <= i < |ids| ==> LinkAt(nodes, ids, i)
  }

  // Node n holds the message.
  ghost predicate Holds(nodes: seq<Node>, n: nat, msg: Bytes) {
    n < |nodes| && nodes[n].length == |msg| <= |nodes[n].data| && nodes[n].data[..|msg|] == msg
  }

  ghost predicate CellHeld(nodes: seq<Node>, queue: seq<Cell>, i: nat)
    requires i < |queue|
  {
    Holds(nodes, queue[i].node, queue[i].msg)
  }

  ghost predicate FlightHeld(nodes: seq<Node>, f: Flight) {
    && (f.Receiving? || f.copied ==> Holds(nodes, f.node, f.msg))
    && (f.Sending? && f.copied && !f.urgent ==> f.node < |nodes| && nodes[f.node].next == NIL)
  }

  ghost predicate Represents(nodes: seq<Node>, size: nat, s: State) {
    && (forall n :: 0 <= n < |nodes| ==> |nodes[n].data| == size)
    && (forall i :: 0 <= i < |s.queue| ==> CellHeld(nodes, s.queue, i))
    && (forall t :: t in s.flights ==> |s.flights[t].msg| <= size && FlightHeld(nodes, s.flights[t]))
  }

  // Only node n differs.
  ghost predicate OnlyNode(m: seq<Node>, nodes: seq<Node>, n: nat) {
    |m| == |nodes| && forall k :: 0 <= k < |m| && k != n ==> m[k] == nodes[k]
  }

  lemma ChainFrame(m: seq<Node>, nodes: seq<Node>, first: int, ids: seq<nat>, n: nat)
    requires Chain(m, first, ids) && OnlyNode(m, nodes, n) && n !in ids
    ensures Chain(nodes, first, ids)
  {
    forall i | 0 <= i < |ids| ensures LinkAt(nodes, ids, i) { assert LinkAt(m, ids, i); }
  }

  lemma ChainTail(nodes: seq<Node>, first: int, ids: seq<nat>)
    requires Chain(nodes, first, ids) && ids != []
    ensures ids[0] < |nodes| && Chain(nodes, nodes[ids[0]].next, ids[1..])
  {
    assert LinkAt(nodes, ids, 0);
    forall i | 0 <= i < |ids[1..]| ensures LinkAt(nodes, ids[1..], i) { assert LinkAt(nodes, ids, i + 1); }
  }

  // Put node n in front of a list.
  lemma ChainPush(m: seq<Node>, nodes: seq<Node>, first: int, ids: seq<nat>, n: nat)
    requires Chain(m, first, ids) && OnlyNode(m, nodes, n) && n !in ids && n < |nodes| && nodes[n].next == first
    ensures Chain(nodes, n, [n] + ids)
  {
    ChainFrame(m, nodes, first, ids, n);
    var r := [n] + ids;
    forall i | 0 <= i < |r| ensures LinkAt(nodes, r, i) { if i > 0 { assert LinkAt(nodes, ids, i - 1); } }
  }

  // Put node n, which ends with NIL, behind the last node of a list.
  lemma ChainAppend(m: seq<Node>, nodes: seq<Node>, first: int, ids: seq<nat>, n: nat)
    requires Chain(m, first, ids) && ids != [] && NoDup(ids) && n !in ids && n < |m| && m[n].next == NIL
    requires var last := ids[|ids| - 1]; last < |m| && nodes == m[last := m[last].(next := n)]
    ensures Chain(nodes, first, ids + [n])
  {
    var r := ids + [n];
    forall i | 0 <= i < |r| ensures LinkAt(nodes, r, i) {
      if i < |ids| { assert LinkAt(m, ids, i) && r[i] == ids[i]; }
    }
  }

  class MessageQueue {
    const size: nat            // msg_size
    const max: nat             // max_msgs
    var nodes: seq<Node>       // the pool
    var head: int              // msg_queue_head
    var tail: int              // msg_queue_tail
    var freeList: int          // msg_queue_free
    var entry: nat
    ghost var st: State

    ghost predicate Linked()
      reads this
    {
      && |nodes| == max && 0 < max <= ENTRY_MAX
      && Chain(nodes, head, Ids(st.queue))
      && tail == (if st.queue == [] then NIL else st.queue[|st.queue| - 1].node)
      && Chain(nodes, freeList, st.free)
      && entry == |st.queue|
    }

    ghost predicate Valid()
      reads this
    {
      Linked() && Represents(nodes, size, st) && Partition(st, max) && Counted(st, max)
    }

    // rt_mq_init
    constructor (msgSize: nat, maxMsgs: nat)
      requires 0 < maxMsgs <= ENTRY_MAX
      ensures Valid() && size == msgSize && max == maxMsgs
      ensures st.queue == [] && st.flights == map[] && |st.free| == maxMsgs
    {
      size, max := msgSize, maxMsgs;
      nodes := seq(maxMsgs, i requires 0 <= i < maxMsgs => Node(NIL, 0, seq(msgSize, j => 0)));
      head, tail, entry := NIL, NIL, 0;
      freeList := NIL;
      st := State([], [], map[]);
      new;
      var temp := 0;
      while temp < max
        invariant temp <= max && |nodes| == max && Chain(nodes, freeList, st.free)
        invariant st == State([], st.free, map[]) && |st.free| == temp && NoDup(st.free)
        invariant forall n :: 0 <= n < max ==> (n in st.free <==> n < temp) && |nodes[n].data| == size
        invariant forall i :: 0 <= i < |st.free| ==> st.free[i] < max
        invariant head == NIL && tail == NIL && entry == 0
      {
        ghost var m := nodes;
        nodes := nodes[temp := nodes[temp].(next := freeList)];
        ChainPush(m, nodes, freeList, st.free, temp);
        freeList := temp;
        st := st.(free := [temp] + st.free);
        temp := temp + 1;
      }
      assert forall n: nat :: n < max ==> Somewhere(st, n);
    }

    // rt_mq_send_wait and rt_mq_urgent up to the end of their first critical
    // section: a node, or NIL if the message is too long or no node is free.
    method BeginSending(t: nat, buffer: Bytes, urgent: bool) returns (msg: int)
      requires Valid() && t !in st.flights
      modifies `freeList, `st
      ensures Valid() && st == BeginSend(old(st), size, t, buffer, urgent)
      ensures msg == NIL <==> |buffer| > size || old(st).free == []
      ensures msg != NIL ==>
        && t in st.flights && msg == st.flights[t].node
        && st.flights[t] == Sending(st.flights[t].node, buffer, urgent, false)
    {
      if |buffer| > size {
        return NIL;
      }
      msg := freeList;
      if msg == NIL {
        return;
      }
      NextPartition(st, size, max, DoBeginSend(t, buffer, urgent));
      NextCounted(st, size, max, DoBeginSend(t, buffer, urgent));
      ChainTail(nodes, freeList, st.free);
      freeList := nodes[msg].next;
      st := BeginSend(st, size, t, buffer, urgent);
    }

    // Outside the lock: fill the node.
    method FillNode(t: nat, msg: nat, buffer: Bytes, urgent: bool)
      requires Valid() && t in st.flights && st.flights[t].Sending?
      requires msg == st.flights[t].node && buffer == st.flights[t].msg && urgent == st.flights[t].urgent
      modifies `nodes, `st
      ensures Valid() && st == CopyIn(old(st), t)
    {
      ghost var m := nodes;
      assert OwnNode(st, max, t);
      NextPartition(st, size, max, DoCopyIn(t));
      NextCounted(st, size, max, DoCopyIn(t));
      if !urgent {
        nodes := nodes[msg := nodes[msg].(next := NIL)];
      }
      nodes := nodes[msg := nodes[msg].(length := |buffer|)];
      nodes := nodes[msg := nodes[msg].(data := buffer + nodes[msg].data[|buffer|..])];
      ChainFrame(m, nodes, head, Ids(st.queue), msg);
      ChainFrame(m, nodes, freeList, st.free, msg);
      FilledRepresents(m, nodes, size, st, max, t);
      st := CopyIn(st, t);
    }

    // The links of a message that joins at the back.
    method AppendNode(msg: nat, ghost ids: seq<nat>)
      requires Chain(nodes, head, ids) && NoDup(ids) && msg !in ids && msg < |nodes| && nodes[msg].next == NIL
      requires tail == if ids == [] then NIL else ids[|ids| - 1]
      modifies `nodes, `head, `tail
      ensures Chain(nodes, head, ids + [msg]) && tail == msg
      ensures nodes == if ids == [] then old(nodes) else Relinked(old(nodes), ids[|ids| - 1], msg)
    {
      ghost var m := nodes;
      if tail != NIL {
        assert LinkAt(nodes, ids, |ids| - 1);
        nodes := nodes[tail := nodes[tail].(next := msg)];
        ChainAppend(m, nodes, head, ids, msg);
      }
      tail := msg;
      if head == NIL {
        head := msg;
      }
    }

    // The links of a message that joins in front.
    method PrependNode(msg: nat, ghost ids: seq<nat>)
      requires Chain(nodes, head, ids) && msg !in ids && msg < |nodes|
      requires tail == if ids == [] then NIL else ids[|ids| - 1]
      modifies `nodes, `head, `tail
      ensures Chain(nodes, head, [msg] + ids) && tail == (if ids == [] then msg else ids[|ids| - 1])
      ensures nodes == Relinked(old(nodes), msg, old(head))
    {
      ghost var m := nodes;
      nodes := nodes[msg := nodes[msg].(next := head)];
      ChainPush(m, nodes, head, ids, msg);
      head := msg;
      if tail == NIL {
        tail := msg;
      }
    }

    // ++mq->entry, unless that would overflow: it never does.
    method CountOne() returns (ok: bool)
      requires entry < max <= ENTRY_MAX
      modifies `entry
      ensures ok && entry == old(entry) + 1
    {
      if entry < ENTRY_MAX {
        entry := entry + 1;
        ok := true;
      } else {
        ok := false;
      }
    }

    // The second critical section of rt_mq_send_wait; `ok` is false for -RT_EFULL.
    method LinkBehind(t: nat, msg: nat) returns (ok: bool)
      requires Valid() && t in st.flights && st.flights[t].Sending? && st.flights[t].copied
      requires msg == st.flights[t].node && !st.flights[t].urgent
      modifies `nodes, `head, `tail, `entry, `st
      ensures Valid() && ok && st == EndSend(old(st), t)
    {
      hide Partition, Represents, Counted;
      ghost var ids := Ids(st.queue);
      SendFacts(nodes, size, st, max, t, freeList);
      LinkedFacts(nodes, size, st, max, t, freeList, head);
      AppendNode(msg, ids);
      st := EndSend(st, t);
      ok := CountOne();
    }

    // The same of rt_mq_urgent
    method LinkInFront(t: nat, msg: nat) returns (ok: bool)
      requires Valid() && t in st.flights && st.flights[t].Sending? && st.flights[t].copied
      requires msg == st.flights[t].node && st.flights[t].urgent
      modifies `nodes, `head, `tail, `entry, `st
      ensures Valid() && ok && st == EndSend(old(st), t)
    {
      hide Partition, Represents, Counted;
      ghost var ids := Ids(st.queue);
      SendFacts(nodes, size, st, max, t, freeList);
      LinkedFacts(nodes, size, st, max, t, freeList, head);
      PrependNode(msg, ids);
      st := EndSend(st, t);
      ok := CountOne();
    }

    // _rt_mq_recv up to the end of its first critical section; NIL if there is no
    // message.
    method BeginReceiving(t: nat, room: nat) returns (msg: int)
      requires Valid() && t !in st.flights
      modifies `head, `tail, `entry, `st
      ensures Valid() && st == BeginRecv(old(st), t, room)
      ensures msg == NIL <==> old(st).queue == []
      ensures msg != NIL ==>
        && t in st.flights && msg == st.flights[t].node
        && st.flights[t] == Receiving(st.flights[t].node, old(st).queue[0].msg, room)
    {
      hide Partition, Represents, Counted;
      if entry == 0 {
        return NIL;
      }
      QueueNoDup(st, max);
      NextPartition(st, size, max, DoBeginRecv(t, room));
      NextCounted(st, size, max, DoBeginRecv(t, room));
      TakenRepresents(nodes, size, st, t, room);
      ghost var ids := Ids(st.queue);
      ChainTail(nodes, head, ids);
      msg := head;
      head := nodes[msg].next;
      if tail == msg {
        assert ids[|ids| - 1] == ids[0];
        tail := NIL;
      }
      if entry > 0 {
        entry := entry - 1;
      }
      st := BeginRecv(st, t, room);
      assert Ids(st.queue) == ids[1..];
    }

    // Outside the lock: what the receiver gets, cut to the room it has.
    method CopyOut(t: nat, msg: nat, room: nat) returns (buffer: Bytes)
      requires Valid() && t in st.flights && st.flights[t].Receiving?
      requires msg == st.flights[t].node && room == st.flights[t].room
      ensures buffer == Received(st.flights[t])
      ensures buffer <= st.flights[t].msg
      ensures |buffer| == if |st.flights[t].msg| <= room then |st.flights[t].msg| else room
    {
      assert FlightHeld(nodes, st.flights[t]);
      var len := nodes[msg].length;
      if len > room {
        len := room;
      }
      buffer := nodes[msg].data[..len];
      assert buffer == nodes[msg].data[..nodes[msg].length][..len];
    }

    // A node goes back to the free nodes.
    method EndReceiving(t: nat, msg: nat)
      requires Valid() && t in st.flights && st.flights[t].Receiving? && msg == st.flights[t].node
      modifies `nodes, `freeList, `st
      ensures Valid() && st == EndRecv(old(st), t)
    {
      hide Partition, Represents, Counted, Chain;
      EndRecvFacts(nodes, size, st, max, t, freeList, head);
      nodes := nodes[msg := nodes[msg].(next := freeList)];
      freeList := msg;
      st := EndRecv(st, t);
    }

    // One turn of the loop that empties the queue.
    method RecycleFirst()
      requires head != NIL && st.queue != [] && |nodes| == max
      requires Chain(nodes, head, Ids(st.queue)) && Chain(nodes, freeList, st.free)
      requires tail == st.queue[|st.queue| - 1].node && NoDup(Ids(st.queue))
      requires st.queue[0].node !in st.free && st.queue[0].node !in Ids(st.queue)[1..]
      modifies `nodes, `head, `tail, `freeList, `st
      ensures st == Recycled(old(st))
      ensures Chain(nodes, head, Ids(st.queue)) && Chain(nodes, freeList, st.free)
      ensures tail == if st.queue == [] then NIL else st.queue[|st.queue| - 1].node
      ensures nodes == Relinked(old(nodes), old(st).queue[0].node, old(freeList))
    {
      ghost var m, ids := nodes, Ids(st.queue);
      var msg := head;
      ChainTail(nodes, head, ids);
      head := nodes[msg].next;
      if tail == msg {
        assert ids[|ids| - 1] == ids[0];
        tail := NIL;
      }
      nodes := nodes[msg := nodes[msg].(next := freeList)];
      ChainPush(m, nodes, freeList, st.free, msg);
      ChainFrame(m, nodes, head, ids[1..], msg);
      freeList := msg;
      st := Recycled(st);
      assert Ids(st.queue) == ids[1..];
    }

    // rt_mq_control with RT_IPC_CMD_RESET
    method ResetQueue()
      requires Valid()
      modifies `nodes, `head, `tail, `freeList, `entry, `st
      ensures Valid() && st == Reset(old(st))
    {
      hide Partition, Represents, Counted;
      ghost var s0 := st;
      while head != NIL
        invariant |nodes| == max && 0 < max <= ENTRY_MAX
        invariant Chain(nodes, head, Ids(st.queue)) && Chain(nodes, freeList, st.free)
        invariant tail == (if st.queue == [] then NIL else st.queue[|st.queue| - 1].node)
        invariant Represents(nodes, size, st) && Partition(st, max) && Counted(st, max)
        invariant Reset(st) == Reset(s0)
        decreases |st.queue|
      {
        RecycledKeeps(nodes, size, st, max, freeList);
        RecycleFirst();
      }
      entry := 0;
    }
  }

  lemma QueueNoDup(s: State, max: nat)
    requires Partition(s, max)
    ensures NoDup(Ids(s.queue))
  {}

  function Relinked(m: seq<Node>, n: nat, next: int): seq<Node> {
    if n < |m| then m[n := m[n].(next := next)] else m
  }

  // The abstract side of linking t's message.
  lemma SendFacts(m: seq<Node>, size: nat, s: State, max: nat, t: nat, freeList: int)
    requires Represents(m, size, s) && Partition(s, max) && Counted(s, max)
    requires t in s.flights && s.flights[t].Sending? && s.flights[t].copied
    ensures Partition(EndSend(s, t), max) && Counted(EndSend(s, t), max) && |s.queue| < max
    ensures var f := s.flights[t];
      && f.node < |m| && f.node !in Ids(s.queue) && NoDup(Ids(s.queue))
      && (!f.urgent ==> m[f.node].next == NIL)
      && Ids(EndSend(s, t).queue) == if f.urgent then [f.node] + Ids(s.queue) else Ids(s.queue) + [f.node]
  {
    NextPartition(s, size, max, DoEndSend(t));
    NextCounted(s, size, max, DoEndSend(t));
    LinkedIds(s, t);
    LandedCount(s.flights, t);
    assert OwnNode(s, max, t) && FlightHeld(m, s.flights[t]);
  }

  // The concrete side: what the one link that changes leaves alone.
  lemma LinkedFacts(m: seq<Node>, size: nat, s: State, max: nat, t: nat, freeList: int, head: int)
    requires Represents(m, size, s) && Partition(s, max) && Chain(m, freeList, s.free)
    requires t in s.flights && s.flights[t].Sending? && s.flights[t].copied
    ensures var ids, f := Ids(s.queue), s.flights[t];
      var nodes := if f.urgent then Relinked(m, f.node, head)
        else if ids == [] then m else Relinked(m, ids[|ids| - 1], f.node);
      Represents(nodes, size, EndSend(s, t)) && Chain(nodes, freeList, s.free)
  {
    var ids, f := Ids(s.queue), s.flights[t];
    assert OwnNode(s, max, t);
    DroppedRepresents(m, size, s, t);
    if f.urgent {
      LinkedRepresents(m, size, s, max, t, f.node, head);
      ChainFrame(m, Relinked(m, f.node, head), freeList, s.free, f.node);
    } else if ids != [] {
      assert ids[|ids| - 1] == s.queue[|s.queue| - 1].node;
      LinkedRepresents(m, size, s, max, t, ids[|ids| - 1], f.node);
      ChainFrame(m, Relinked(m, ids[|ids| - 1], f.node), freeList, s.free, ids[|ids| - 1]);
    }
  }

  // Only the link of node n changes, and n is not in flight elsewhere.
  lemma LinkedRepresents(m: seq<Node>, size: nat, s: State, max: nat, t: nat, n: nat, next: int)
    requires Represents(m, size, s) && Partition(s, max)
    requires t in s.flights && s.flights[t].Sending? && s.flights[t].copied
    requires n in Ids(s.queue) || n == s.flights[t].node
    ensures Represents(Relinked(m, n, next), size, EndSend(s, t))
  {
    var nodes, r := Relinked(m, n, next), EndSend(s, t);
    assert FlightHeld(m, s.flights[t]);
    forall i | 0 <= i < |r.queue| ensures CellHeld(nodes, r.queue, i) {
      var j := if s.flights[t].urgent then i - 1 else i;
      if 0 <= j < |s.queue| { assert CellHeld(m, s.queue, j) && r.queue[i] == s.queue[j]; }
    }
    forall u | u in r.flights ensures |r.flights[u].msg| <= size && FlightHeld(nodes, r.flights[u]) {
      assert OwnNode(s, max, u) && s.flights[u].node != n;
    }
  }

  lemma DroppedRepresents(nodes: seq<Node>, size: nat, s: State, t: nat)
    requires Represents(nodes, size, s) && t in s.flights && s.flights[t].Sending? && s.flights[t].copied
    ensures Represents(nodes, size, EndSend(s, t))
  {
    var r := EndSend(s, t);
    assert FlightHeld(nodes, s.flights[t]);
    forall i | 0 <= i < |r.queue| ensures CellHeld(nodes, r.queue, i) {
      var j := if s.flights[t].urgent then i - 1 else i;
      if 0 <= j < |s.queue| { assert CellHeld(nodes, s.queue, j) && r.queue[i] == s.queue[j]; }
    }
  }

  // One turn of the loop of RT_IPC_CMD_RESET.
  function Recycled(s: State): State
    requires s.queue != []
  {
    s.(queue := s.queue[1..], free := [s.queue[0].node] + s.free)
  }

  lemma RecycledKeeps(m: seq<Node>, size: nat, s: State, max: nat, next: int)
    requires Represents(m, size, s) && Partition(s, max) && Counted(s, max) && s.queue != []
    ensures Represents(Relinked(m, s.queue[0].node, next), size, Recycled(s))
    ensures Partition(Recycled(s), max) && Counted(Recycled(s), max)
    ensures NoDup(Ids(s.queue)) && s.queue[0].node !in s.free && s.queue[0].node !in Ids(s.queue)[1..]
  {
    var n, r := s.queue[0].node, Recycled(s);
    var nodes := Relinked(m, n, next);
    RecycledPartition(s, max);
    assert Ids(s.queue)[0] == n;
    forall i | 0 <= i < |r.queue| ensures CellHeld(nodes, r.queue, i) {
      assert CellHeld(m, s.queue, i + 1) && Ids(s.queue)[i + 1] != n;
    }
    forall u | u in r.flights ensures |r.flights[u].msg| <= size && FlightHeld(nodes, r.flights[u]) {
      assert OwnNode(s, max, u) && s.flights[u].node != n;
    }
  }

  // Giving node n back: its link changes, and t's flight is over.
  lemma ReturnedRepresents(m: seq<Node>, size: nat, s: State, max: nat, t: nat, next: int)
    requires Represents(m, size, s) && Partition(s, max) && t in s.flights && s.flights[t].Receiving?
    requires s.flights[t].node < |m|
    ensures var n := s.flights[t].node; Represents(m[n := m[n].(next := next)], size, EndRecv(s, t))
  {
    var n, r := s.flights[t].node, EndRecv(s, t);
    var nodes := m[n := m[n].(next := next)];
    assert OwnNode(s, max, t);
    forall i | 0 <= i < |r.queue| ensures CellHeld(nodes, r.queue, i) { assert CellHeld(m, s.queue, i); }
    forall u | u in r.flights ensures |r.flights[u].msg| <= size && FlightHeld(nodes, r.flights[u]) {
      assert s.flights[u].node != n;
    }
  }

  lemma EndRecvFacts(m: seq<Node>, size: nat, s: State, max: nat, t: nat, freeList: int, head: int)
    requires Represents(m, size, s) && Partition(s, max) && Counted(s, max) && |m| == max
    requires Chain(m, freeList, s.free) && Chain(m, head, Ids(s.queue))
    requires t in s.flights && s.flights[t].Receiving?
    ensures Partition(EndRecv(s, t), max) && Counted(EndRecv(s, t), max)
    ensures var n := s.flights[t].node;
      && n < |m| && Represents(m[n := m[n].(next := freeList)], size, EndRecv(s, t))
      && Chain(m[n := m[n].(next := freeList)], n, EndRecv(s, t).free)
      && Chain(m[n := m[n].(next := freeList)], head, Ids(s.queue))
  {
    var n := s.flights[t].node;
    NextPartition(s, size, max, DoEndRecv(t));
    NextCounted(s, size, max, DoEndRecv(t));
    assert OwnNode(s, max, t);
    ReturnedRepresents(m, size, s, max, t, freeList);
    var nodes := m[n := m[n].(next := freeList)];
    ChainPush(m, nodes, freeList, s.free, n);
    ChainFrame(m, nodes, head, Ids(s.queue), n);
  }

  lemma TakenRepresents(nodes: seq<Node>, size: nat, s: State, t: nat, room: nat)
    requires Represents(nodes, size, s)
    ensures Represents(nodes, size, BeginRecv(s, t, room))
  {
    var r := BeginRecv(s, t, room);
    if r != s {
      assert CellHeld(nodes, s.queue, 0);
      forall i | 0 <= i < |r.queue| ensures CellHeld(nodes, r.queue, i) { assert CellHeld(nodes, s.queue, i + 1); }
    }
  }

  lemma FilledRepresents(m: seq<Node>, nodes: seq<Node>, size: nat, s: State, max: nat, t: nat)
    requires Represents(m, size, s) && Partition(s, max) && t in s.flights && s.flights[t].Sending?
    requires var n := s.flights[t].node;
      && OnlyNode(m, nodes, n) && n < |nodes| && |nodes[n].data| == size
      && Holds(nodes, n, s.flights[t].msg) && (!s.flights[t].urgent ==> nodes[n].next == NIL)
    ensures Represents(nodes, size, CopyIn(s, t))
  {
    var r, n := CopyIn(s, t), s.flights[t].node;
    assert OwnNode(s, max, t);
    forall i | 0 <= i < |r.queue| ensures CellHeld(nodes, r.queue, i) {
      assert CellHeld(m, s.queue, i) && Ids(s.queue)[i] != n;
    }
    forall u | u in r.flights ensures |r.flights[u].msg| <= size && FlightHeld(nodes, r.flights[u]) {
      if u != t { assert s.flights[u].node != n; }
    }
  }
}
