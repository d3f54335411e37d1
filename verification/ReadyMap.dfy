// How rt-thread/src/scheduler_up.c remembers which priorities have a ready
// thread: one word for up to 32 priorities, a word over 32 bytes for 256.

module ReadyMap {
  import opened Bits

  const WORD: nat := 0x1_0000_0000

  // p is the highest priority (the least number) in the set.
  ghost predicate IsHighest(prios: set<nat>, p: nat) {
    p in prios && forall q :: q in prios ==> p <= q
  }

  // rt_thread_ready_priority_group has exactly the bits of the set.
  ghost predicate Shows(g: nat, prios: set<nat>) {
    g < WORD && forall p: nat :: Bit(g, p) <==> p in prios
  }

  lemma WordSize()
    ensures Pow2(3) == 8 && Pow2(5) == 32 && Pow2(8) == 256 && Pow2(32) == WORD
  {
    Pow2Add(8, 8);
    Pow2Add(16, 16);
  }

  lemma ShowsBelow(g: nat, prios: set<nat>, p: nat)
    requires Shows(g, prios) && p in prios
    ensures p < 32
  {
    WordSize();
    BitBelow(g, p, 32);
  }

  // rt_thread_ready_priority_group |= number_mask
  lemma MarkShows(g: nat, prios: set<nat>, p: nat)
    requires Shows(g, prios) && p < 32
    ensures Shows(Or(g, Pow2(p)), prios + {p})
  {
    var r := Or(g, Pow2(p));
    forall q: nat ensures Bit(r, q) <==> q in prios + {p} {
      OrBit(g, Pow2(p), q);
      PowBit(p, q);
    }
    forall q: nat | Bit(r, q) ensures q < 32 { if q in prios { ShowsBelow(g, prios, q); } }
    FewBits(r, 32);
    WordSize();
  }

  // rt_thread_ready_priority_group &= ~number_mask
  lemma ClearShows(g: nat, prios: set<nat>, p: nat)
    requires Shows(g, prios) && p < 32
    ensures Shows(AndNot(g, Pow2(p)), prios - {p})
  {
    var r := AndNot(g, Pow2(p));
    forall q: nat ensures Bit(r, q) <==> q in prios - {p} {
      AndNotBit(g, Pow2(p), q);
      PowBit(p, q);
    }
    forall q: nat | Bit(r, q) ensures q < 32 { ShowsBelow(g, prios, q); }
    FewBits(r, 32);
    WordSize();
  }

  // __rt_ffs(rt_thread_ready_priority_group) - 1, and the test against 0
  lemma FfsIsHighest(g: nat, prios: set<nat>)
    requires Shows(g, prios)
    ensures g == 0 <==> prios == {}
    ensures prios != {} ==> Ffs(g) > 0 && IsHighest(prios, Ffs(g) - 1)
  {
    FfsIsLowest(g);
    if g > 0 {
      LowestIsSet(g);
      assert Lowest(g) in prios;
    } else {
      forall p | p in prios ensures false { ZeroBit(p); }
    }
  }

  // The form for more than 32 priorities: priority p is bit p & 7 of byte p >> 3.
  class ReadyTable {
    var group: nat
    const table: array<nat>

    ghost predicate Shows2(prios: set<nat>)
      reads this, table
    {
      && table.Length == 32
      && (forall p :: p in prios ==> p < 256)
      && Shows(group, Groups(prios))
      && forall n :: 0 <= n < 32 ==> table[n] < 256 && Shows(table[n], Within(prios, n))
    }

    constructor ()
      ensures Shows2({}) && fresh(table)
    {
      group := 0;
      table := new nat[32](_ => 0);
      new;
      forall k: nat ensures !Bit(0, k) { ZeroBit(k); }
    }

    // What rt_sched_insert_thread does to the map.
    method Mark(number: nat, numberMask: nat, highMask: nat, ghost prios: set<nat>, ghost p: nat)
      requires Shows2(prios) && p < 256
      requires number == p / 8 && numberMask == Pow2(p / 8) && highMask == Pow2(p % 8)
      modifies this, table
      ensures Shows2(prios + {p})
    {
      MarkShows(table[number], Within(prios, number), p % 8);
      MarkShows(group, Groups(prios), number);
      MarkedBytes(prios, p);
      ByteShows(Or(table[number], highMask), prios + {p}, number);
      table[number] := Or(table[number], highMask);
      group := Or(group, numberMask);
    }

    // What rt_sched_remove_thread does to the map once the queue is empty.
    method Clear(number: nat, numberMask: nat, highMask: nat, ghost prios: set<nat>, ghost p: nat)
      requires Shows2(prios) && p < 256
      requires number == p / 8 && numberMask == Pow2(p / 8) && highMask == Pow2(p % 8)
      modifies this, table
      ensures Shows2(prios - {p})
    {
      ClearShows(table[number], Within(prios, number), p % 8);
      ClearShows(group, Groups(prios), number);
      ClearedBytes(prios, p);
      var byte := AndNot(table[number], highMask);
      FfsIsHighest(byte, Within(prios - {p}, number));
      ByteShows(byte, prios - {p}, number);
      table[number] := byte;
      if table[number] == 0 {
        group := AndNot(group, numberMask);
      }
    }

    // The choice in _scheduler_get_highest_priority_thread.
    method Highest(ghost prios: set<nat>) returns (p: nat)
      requires Shows2(prios) && prios != {}
      ensures IsHighest(prios, p)
    {
      hide Ffs, Groups, Within, Bit;
      GroupsOccupied(prios);
      FfsIsHighest(group, Groups(prios));
      var number := Ffs(group) - 1;
      ShowsBelow(group, Groups(prios), number);
      FfsIsHighest(table[number], Within(prios, number));
      p := number * 8 + (Ffs(table[number]) - 1);
      LeastOfLeast(prios, number, p - 8 * number);
    }
  }

  // The bytes that are not zero.
  ghost function Groups(prios: set<nat>): set<nat> {
    set p | p in prios :: p / 8
  }

  // The bits of byte n.
  ghost function Within(prios: set<nat>, n: nat): set<nat> {
    set p | p in prios && p / 8 == n :: p % 8
  }

  lemma MarkedBytes(prios: set<nat>, p: nat)
    ensures Groups(prios + {p}) == Groups(prios) + {p / 8}
    ensures Within(prios + {p}, p / 8) == Within(prios, p / 8) + {p % 8}
    ensures forall n: nat :: n != p / 8 ==> Within(prios + {p}, n) == Within(prios, n)
  {
    var r := prios + {p};
    assert p in r;
    forall q | q in Groups(prios) ensures q in Groups(r) {
      var x :| x in prios && x / 8 == q;
      assert x in r;
    }
    forall n: nat, b | b in Within(prios, n) ensures b in Within(r, n) {
      var x :| x in prios && x / 8 == n && x % 8 == b;
      assert x in r;
    }
  }

  lemma ClearedBytes(prios: set<nat>, p: nat)
    ensures Within(prios - {p}, p / 8) == Within(prios, p / 8) - {p % 8}
    ensures forall n: nat :: n != p / 8 ==> Within(prios - {p}, n) == Within(prios, n)
    ensures Groups(prios - {p}) ==
      if Within(prios - {p}, p / 8) == {} then Groups(prios) - {p / 8} else Groups(prios)
  {
    var r := prios - {p};
    forall n: nat, b | b in Within(prios, n) && (n != p / 8 || b != p % 8) ensures b in Within(r, n) {
      var x :| x in prios && x / 8 == n && x % 8 == b;
      assert x in r;
    }
    forall b | b in Within(r, p / 8) ensures b != p % 8 {
      var x :| x in r && x / 8 == p / 8 && x % 8 == b;
      assert x == 8 * (x / 8) + b && p == 8 * (p / 8) + p % 8;
    }
    forall g | g in Groups(prios) && g != p / 8 ensures g in Groups(r) {
      var x :| x in prios && x / 8 == g;
      assert x in r;
    }
    if Within(r, p / 8) != {} {
      var b :| b in Within(r, p / 8);
      var x :| x in r && x / 8 == p / 8 && x % 8 == b;
      assert p / 8 in Groups(r);
    } else {
      forall x | x in r ensures x / 8 != p / 8 { assert x % 8 !in Within(r, p / 8); }
    }
  }

  lemma ByteShows(v: nat, prios: set<nat>, n: nat)
    requires Shows(v, Within(prios, n))
    ensures v < 256
  {
    WordSize();
    FewBits(v, 8);
  }

  lemma LeastOfLeast(prios: set<nat>, number: nat, bit: nat)
    requires IsHighest(Groups(prios), number) && IsHighest(Within(prios, number), bit)
    ensures IsHighest(prios, number * 8 + bit)
  {
    var x :| x in prios && x / 8 == number && x % 8 == bit;
    forall q | q in prios ensures number * 8 + bit <= q {
      assert q / 8 in Groups(prios);
      if q / 8 == number { assert q % 8 in Within(prios, number); }
    }
  }

  lemma GroupsOccupied(prios: set<nat>)
    ensures prios != {} ==> Groups(prios) != {}
    ensures forall n :: n in Groups(prios) ==> Within(prios, n) != {}
  {
    if prios != {} {
      var p :| p in prios;
      assert p / 8 in Groups(prios);
    }
    forall n | n in Groups(prios) ensures Within(prios, n) != {} {
      var p :| p in prios && p / 8 == n;
      assert p % 8 in Within(prios, n);
    }
  }
}
