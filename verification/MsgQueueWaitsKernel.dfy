// The message queue's calls as they run, with the two wait lists: each method is
// one turn of a loop, or one critical section, of rt-thread/src/ipc.c.

module MsgQueueWaitsKernel {
  import opened Common
  import opened WaitLists
  import Q = MsgQueue
  import opened MsgQueueKernel
  import W = MsgQueueWaits

  datatype Outcome = Owns(msg: int) | TooLong | Full | Empty | Sleeps

  class BlockingQueue {
    const mq: MessageQueue
    var receivers: seq<nat>          // parent.suspend_thread
    var senders: seq<nat>            // suspend_sender_thread
    ghost var wokenReceivers: set<nat>
    ghost var wokenSenders: set<nat>

    ghost function State(): W.State
      reads this, mq
    {
      W.State(mq.st, receivers, senders, wokenReceivers, wokenSenders)
    }

    // rt_mq_init
    constructor (msgSize: nat, maxMsgs: nat)
      requires 0 < maxMsgs <= ENTRY_MAX
      ensures fresh(mq) && mq.Valid() && mq.size == msgSize && mq.max == maxMsgs
      ensures State() == W.Idle(mq.st.free) && |mq.st.free| == maxMsgs
    {
      mq := new MessageQueue(msgSize, maxMsgs);
      receivers, senders, wokenReceivers, wokenSenders := [], [], {}, {};
    }

    method ResumeReceiver()
      modifies `receivers, `wokenReceivers
      ensures State() == W.WakeReceiver(old(State()))
    {
      if receivers != [] {
        wokenReceivers := wokenReceivers + {receivers[0]};
        receivers := receivers[1..];
      }
    }

    method ResumeSender()
      modifies `senders, `wokenSenders
      ensures State() == W.WakeSender(old(State()))
    {
      if senders != [] {
        wokenSenders := wokenSenders + {senders[0]};
        senders := senders[1..];
      }
    }

    // One turn of the loop of _rt_mq_send_wait, from taking the lock to leaving it;
    // with `wait` false, and `urgent` true, rt_mq_urgent.
    method SendWait(t: nat, buffer: Q.Bytes, urgent: bool, wait: bool, place: nat) returns (r: Outcome)
      requires mq.Valid() && t !in mq.st.flights
      modifies this, mq
      ensures mq.Valid() && State() == W.SendTurn(old(State()), mq.size, t, buffer, urgent, wait, place)
      ensures match r
        case TooLong => |buffer| > mq.size
        case Owns(msg) =>
          |buffer| <= mq.size && old(mq.st).free != []
          && t in mq.st.flights && mq.st.flights[t] == Q.Sending(mq.st.flights[t].node, buffer, urgent, false)
          && msg == mq.st.flights[t].node
        case Sleeps => |buffer| <= mq.size && old(mq.st).free == [] && wait
        case Full => |buffer| <= mq.size && old(mq.st).free == [] && !wait
        case Empty => false
    {
      if |buffer| > mq.size {
        return TooLong;
      }
      wokenSenders := wokenSenders - {t};
      var msg := mq.BeginSending(t, buffer, urgent);
      if msg != NIL {
        return Owns(msg);
      }
      if !wait {
        return Full;
      }
      senders := Enqueue(senders, t, place);
      return Sleeps;
    }

    // The second critical section of a send: link, count, and wake a receiver.
    method FinishSend(t: nat, msg: nat, urgent: bool) returns (ok: bool)
      requires mq.Valid() && t in mq.st.flights && mq.st.flights[t].Sending? && mq.st.flights[t].copied
      requires msg == mq.st.flights[t].node && urgent == mq.st.flights[t].urgent
      modifies this, mq
      ensures mq.Valid() && ok && State() == W.FinishSend(old(State()), t)
    {
      if urgent {
        ok := mq.LinkInFront(t, msg);
      } else {
        ok := mq.LinkBehind(t, msg);
      }
      ResumeReceiver();
    }

    // One turn of the loop of _rt_mq_recv
    method RecvWait(t: nat, room: nat, wait: bool, place: nat) returns (r: Outcome)
      requires mq.Valid() && t !in mq.st.flights
      modifies this, mq
      ensures mq.Valid() && State() == W.RecvTurn(old(State()), t, room, wait, place)
      ensures match r
        case Owns(msg) =>
          old(mq.st).queue != [] && t in mq.st.flights
          && mq.st.flights[t] == Q.Receiving(mq.st.flights[t].node, old(mq.st).queue[0].msg, room)
          && msg == mq.st.flights[t].node
        case Sleeps => old(mq.st).queue == [] && wait
        case Empty => old(mq.st).queue == [] && !wait
        case _ => false
    {
      wokenReceivers := wokenReceivers - {t};
      var msg := mq.BeginReceiving(t, room);
      if msg != NIL {
        return Owns(msg);
      }
      if !wait {
        return Empty;
      }
      receivers := Enqueue(receivers, t, place);
      return Sleeps;
    }

    // The second critical section of a receive: free the node, and wake a sender.
    method FinishRecv(t: nat, msg: nat)
      requires mq.Valid() && t in mq.st.flights && mq.st.flights[t].Receiving? && msg == mq.st.flights[t].node
      modifies this, mq
      ensures mq.Valid() && State() == W.FinishRecv(old(State()), t)
    {
      mq.EndReceiving(t, msg);
      ResumeSender();
    }

    // rt_mq_control with RT_IPC_CMD_RESET
    method Control()
      requires mq.Valid()
      modifies this, mq
      ensures mq.Valid() && State() == W.Reset(old(State()))
    {
      receivers, senders := [], [];
      mq.ResetQueue();
    }
  }
}
