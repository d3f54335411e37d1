// The mailbox's code: a ring of words, and the two wait lists.

module MailboxKernel {
  import opened Common
  import opened Arith
  import opened Mailbox
  import opened WaitLists

  const ENTRY_MAX: nat := 65535     // RT_MB_ENTRY_MAX

  datatype Outcome = Done | Full | Empty | Sleeps

  // Position x on a ring of n places, counted at most once around: x % n.
  function Slot(x: nat, n: nat): (r: nat)
    requires x < 2 * n
    ensures r < n
  {
    if x < n then x else x - n
  }

  lemma SlotIsMod(x: nat, n: nat)
    requires x < 2 * n
    ensures Slot(x, n) == x % n
  {
    if x < n { SmallMod(x, n); } else { DivModUnique(x, n, 1, x - n); }
  }

  // The `entry` words from `out` on, around the ring.
  ghost function Ring(pool: seq<int>, out: nat, entry: nat): (r: seq<int>)
    requires out < |pool| && entry <= |pool|
    ensures |r| == entry && forall i :: 0 <= i < entry ==> r[i] == pool[Slot(out + i, |pool|)]
  {
    seq(entry, i requires 0 <= i < entry => pool[Slot(out + i, |pool|)])
  }

  lemma RingPut(pool: seq<int>, out: nat, entry: nat, value: int)
    requires out < |pool| && entry < |pool|
    ensures Ring(pool[Slot(out + entry, |pool|) := value], out, entry + 1) == Ring(pool, out, entry) + [value]
  {}

  lemma RingPutFirst(pool: seq<int>, out: nat, entry: nat, value: int)
    requires out < |pool| && entry < |pool|
    ensures var o := if out > 0 then out - 1 else |pool| - 1;
      && Ring(pool[o := value], o, entry + 1) == [value] + Ring(pool, out, entry)
      && Slot(o + (entry + 1), |pool|) == Slot(out + entry, |pool|)
  {}

  lemma RingGet(pool: seq<int>, out: nat, entry: nat)
    requires out < |pool| && 0 < entry <= |pool|
    ensures Ring(pool, out, entry)[0] == pool[out]
    ensures var o := if out + 1 >= |pool| then 0 else out + 1;
      && Ring(pool, o, entry - 1) == Ring(pool, out, entry)[1..]
      && Slot(o + (entry - 1), |pool|) == Slot(out + entry, |pool|)
  {}

  class MailBox {
    const pool: array<int>           // msg_pool
    var inOffset: nat
    var outOffset: nat
    var entry: nat
    var receivers: seq<nat>          // parent.suspend_thread
    var senders: seq<nat>            // suspend_sender_thread
    ghost var wokenReceivers: set<nat>
    ghost var wokenSenders: set<nat>

    ghost predicate Valid()
      reads this, pool
    {
      && 0 < pool.Length <= ENTRY_MAX
      && outOffset < pool.Length && entry <= pool.Length
      && inOffset == Slot(outOffset + entry, pool.Length)
    }

    ghost function State(): State
      requires Valid()
      reads this, pool
    {
      Mailbox.State(Ring(pool[..], outOffset, entry), pool.Length, receivers, senders, wokenReceivers, wokenSenders)
    }

    // rt_mb_init
    constructor (size: nat)
      requires 0 < size <= ENTRY_MAX
      ensures Valid() && State() == Mailbox.Empty(size) && fresh(pool)
    {
      pool := new int[size];
      inOffset, outOffset, entry := 0, 0, 0;
      receivers, senders, wokenReceivers, wokenSenders := [], [], {}, {};
    }

    // The head waiter, if there is one, is made runnable.
    method ResumeReceiver()
      requires Valid()
      modifies `receivers, `wokenReceivers
      ensures Valid() && State() == WakeReceiver(old(State()))
    {
      if receivers != [] {
        wokenReceivers := wokenReceivers + {receivers[0]};
        receivers := receivers[1..];
      }
    }

    method ResumeSender()
      requires Valid()
      modifies `senders, `wokenSenders
      ensures Valid() && State() == WakeSender(old(State()))
    {
      if senders != [] {
        wokenSenders := wokenSenders + {senders[0]};
        senders := senders[1..];
      }
    }

    // One turn of the loop of _rt_mb_send_wait, from taking the lock to leaving it
    method SendWait(t: nat, value: int, wait: bool, place: nat) returns (r: Outcome)
      requires Valid()
      modifies this, pool
      ensures Valid() && State() == Send(old(State()), t, value, wait, place)
      ensures r == if old(entry) < pool.Length then Done else if wait then Sleeps else Full
    {
      wokenSenders := wokenSenders - {t};
      if entry == pool.Length {
        if !wait {
          return Full;
        }
        senders := Enqueue(senders, t, place);
        return Sleeps;
      }
      ghost var p := pool[..];
      RingPut(p, outOffset, entry, value);
      pool[inOffset] := value;
      assert pool[..] == p[inOffset := value];
      inOffset := inOffset + 1;
      if inOffset >= pool.Length {
        inOffset := 0;
      }
      if entry < ENTRY_MAX {
        entry := entry + 1;
      } else {
        return Full;
      }
      ResumeReceiver();
      r := Done;
    }

    // rt_mb_urgent
    method UrgentMail(value: int) returns (r: Outcome)
      requires Valid()
      modifies this, pool
      ensures Valid() && State() == Urgent(old(State()), value)
      ensures r == if old(entry) < pool.Length then Done else Full
    {
      if entry == pool.Length {
        return Full;
      }
      ghost var p := pool[..];
      RingPutFirst(p, outOffset, entry, value);
      if outOffset > 0 {
        outOffset := outOffset - 1;
      } else {
        outOffset := pool.Length - 1;
      }
      pool[outOffset] := value;
      assert pool[..] == p[outOffset := value];
      entry := entry + 1;
      ResumeReceiver();
      r := Done;
    }

    // One turn of the loop of _rt_mb_recv
    method RecvWait(t: nat, wait: bool, place: nat) returns (r: Outcome, value: int)
      requires Valid()
      modifies this
      ensures Valid() && State() == Receive(old(State()), t, wait, place)
      ensures r == if old(entry) > 0 then Done else if wait then Sleeps else Empty
      ensures r == Done ==> old(State()).mails != [] && value == old(State()).mails[0]
    {
      wokenReceivers := wokenReceivers - {t};
      value := 0;
      if entry == 0 {
        if !wait {
          return Empty, value;
        }
        receivers := Enqueue(receivers, t, place);
        return Sleeps, value;
      }
      RingGet(pool[..], outOffset, entry);
      value := pool[outOffset];
      outOffset := outOffset + 1;
      if outOffset >= pool.Length {
        outOffset := 0;
      }
      if entry > 0 {
        entry := entry - 1;
      }
      ResumeSender();
      r := Done;
    }

    // rt_mb_control with RT_IPC_CMD_RESET
    method ResetBox()
      requires Valid()
      modifies this
      ensures Valid() && State() == Reset(old(State()))
    {
      receivers, senders := [], [];
      entry := 0;
      inOffset := 0;
      outOffset := 0;
    }
  }
}
