// rt_malloc_align and rt_free_align (rt-thread/src/kservice.c) on the small-memory
// heap. Addresses are in bytes; word w of the heap stands at base + 4 * w.

module AlignedAlloc {
  import opened Arith
  import opened Bits
  import opened BlockLayout
  import opened SmallMem

  // --- masks --------------------------------------------------------------------------

  // x & (align - 1) and x & ~(align - 1) for a power of two
  lemma {:induction false} MaskIsMod(x: nat, k: nat)
    ensures And(x, Pow2(k) - 1) == x % Pow2(k)
    ensures AndNot(x, Pow2(k) - 1) == x - x % Pow2(k)
    decreases k
  {
    hide And, AndNot;
    if k == 0 {
      AndNotZero(x);
    } else if x != 0 {
      var a := Pow2(k - 1);
      MaskIsMod(x / 2, k - 1);
      HalveMod(x, a);
      MaskStep(x, a);
    } else {
      MaskSplit(0, Pow2(k) - 1);
      SmallMod(0, Pow2(k));
    }
  }

  // The lowest bit of a mask 2 * a - 1 is set, and the others are a - 1.
  lemma MaskStep(x: nat, a: nat)
    requires x > 0 && a > 0
    ensures And(x, 2 * a - 1) == x % 2 + 2 * And(x / 2, a - 1)
    ensures AndNot(x, 2 * a - 1) == 2 * AndNot(x / 2, a - 1)
  {
    assert (2 * a - 1) / 2 == a - 1 && (2 * a - 1) % 2 == 1;
  }

  lemma {:induction false} AndNotZero(x: nat)
    ensures And(x, 0) == 0 && AndNot(x, 0) == x
  {
    if x != 0 { AndNotZero(x / 2); }
  }

  lemma HalveMod(x: nat, m: nat)
    requires m > 0
    ensures x % (2 * m) == 2 * (x / 2 % m) + x % 2
  {
    var q, r := x / 2 / m, x / 2 % m;
    assert x / 2 == m * q + r;
    assert x == 2 * (m * q + r) + x % 2;
    assert 2 * (m * q) == (2 * m) * q;
    DivModUnique(x, 2 * m, q, 2 * r + x % 2);
  }

  // (x + (align - 1)) & ~(align - 1)
  function RoundUp(x: nat, align: nat): nat
    requires align > 0
  {
    AndNot(x + (align - 1), align - 1)
  }

  lemma RoundUpFacts(x: nat, k: nat)
    ensures var r := RoundUp(x, Pow2(k)); x <= r < x + Pow2(k) && r % Pow2(k) == 0
  {
    var y := x + (Pow2(k) - 1);
    MaskIsMod(y, k);
    LessRemainder(y, Pow2(k));
  }

  lemma LessRemainder(y: nat, a: nat)
    requires a > 0
    ensures y - y % a >= 0 && (y - y % a) % a == 0 && y % a < a
  {
    var q := y / a;
    assert y == a * q + y % a;
    DivModUnique(y - y % a, a, q, 0);
  }

  // Multiples of a larger power of two are multiples of a smaller one.
  lemma {:induction false} Coarser(x: nat, k: nat, j: nat)
    requires x % Pow2(k) == 0 && j <= k
    ensures x % Pow2(j) == 0
    decreases k
  {
    if j < k {
      HalveMod(x, Pow2(k - 1));
      var a, q := Pow2(k - 1), x / Pow2(k);
      assert x == (2 * a) * q == a * (2 * q);
      DivModUnique(x, a, 2 * q, 0);
      Coarser(x, k - 1, j);
    }
  }

  // --- the two functions --------------------------------------------------------------------

  // Where rt_malloc_align puts the caller's data in a block at ptr.
  function AlignPtr(ptr: nat, align: nat): nat
    requires align > 0
  {
    if And(ptr, align - 1) == 0 then ptr + align else RoundUp(ptr, align)
  }

  // The two halves of a word under any mask.
  lemma {:induction false} MaskSplit(x: nat, m: nat)
    ensures And(x, m) + AndNot(x, m) == x && And(x, m) <= m
    ensures And(AndNot(x, m), m) == 0
    decreases x
  {
    if x != 0 {
      MaskSplit(x / 2, m / 2);
      var n := AndNot(x / 2, m / 2);
      assert AndNot(x, m) / 2 == n && (AndNot(x, m) % 2 == 0 || m % 2 == 0);
    }
  }

  lemma MaskLow(x: nat, m: nat)
    requires m % 4 == 3
    ensures AndNot(x, m) % 4 == 0
  {
    assert m % 2 == 1 && m / 2 % 2 == 1;
    if x != 0 && x / 2 != 0 {
      assert AndNot(x, m) == 2 * AndNot(x / 2, m / 2) == 2 * (2 * AndNot(x / 2 / 2, m / 2 / 2));
    }
  }

  // For any alignment at all there is room for the saved pointer in front of the
  // data, and for the data behind it.
  lemma AlignPtrRoom(ptr: nat, align: nat)
    requires align > 0 && align % 4 == 0 && ptr % 4 == 0
    ensures var r := AlignPtr(ptr, align); r % 4 == 0 && ptr + 4 <= r <= ptr + align
  {
    hide And, AndNot;
    var y := ptr + (align - 1);
    MaskSplit(y, align - 1);
    MaskLow(y, align - 1);
  }

  // A power of two is met exactly.
  lemma AlignPtrFacts(ptr: nat, k: nat)
    ensures AlignPtr(ptr, Pow2(k)) % Pow2(k) == 0
  {
    hide And, AndNot, RoundUp, Pow2;
    MaskIsMod(ptr, k);
    RoundUpFacts(ptr, k);
    AddMod(ptr, Pow2(k));
  }

  ghost predicate IsPow2(a: nat) {
    exists k: nat :: a == Pow2(k)
  }

  // Does the caller get what it asked for?
  predicate Lands(ptr: nat, align0: nat)
    requires align0 > 0 && RoundUp(align0, 4) > 0
  {
    AlignPtr(ptr, RoundUp(align0, 4)) % align0 == 0
  }

  lemma RoundUp4(x: nat)
    ensures x <= RoundUp(x, 4) < x + 4 && RoundUp(x, 4) % 4 == 0
  {
    hide RoundUp;
    IsFour();
    RoundUpFacts(x, 2);
  }

  lemma LandsOnPower(ptr: nat, k: nat)
    ensures RoundUp(Pow2(k), 4) > 0 && Lands(ptr, Pow2(k))
  {
    hide And, AndNot, RoundUp, AlignPtr;
    AlignIsPower(k);
    var j := if k < 2 then 2 else k;
    AlignPtrFacts(ptr, j);
    Coarser(AlignPtr(ptr, Pow2(j)), j, k);
  }

  lemma {:induction false} BitAlone(k: nat, m: nat)
    requires m < Pow2(k)
    ensures And(Pow2(k), m) == 0
  {
    if k > 0 && m > 0 {
      BitAlone(k - 1, m / 2);
      assert Pow2(k) / 2 == Pow2(k - 1) && Pow2(k) % 2 == 0;
    }
  }

  // Only powers of two divide one.
  lemma {:induction false} DividesPow2(a: nat, q: nat, k: nat)
    requires a * q == Pow2(k)
    ensures IsPow2(a)
    decreases k
  {
    if k == 0 {
      if a > 1 && q > 0 { MulMono(a, 1, q); }
      assert a == Pow2(0);
    } else if a % 2 == 0 {
      var b := a / 2;
      assert 2 * (b * q) == a * q;
      DividesPow2(b, q, k - 1);
      var j: nat :| b == Pow2(j);
      assert a == Pow2(j + 1);
    } else {
      OddFactor(a, q, Pow2(k - 1));
      DividesPow2(a, q / 2, k - 1);
    }
  }

  lemma OddFactor(a: nat, q: nat, p: nat)
    requires a % 2 == 1 && a * q == 2 * p
    ensures a * (q / 2) == p
  {
    var b := a / 2;
    assert a * q == 2 * (b * q) + q;
    assert q == 2 * (q / 2);
    assert a * q == 2 * (a * (q / 2));
  }

  // The least power of two that is not below a.
  lemma PowAt(a: nat) returns (n: nat)
    requires a > 0
    ensures a <= Pow2(n) < 2 * a
  {
    n := 0;
    while Pow2(n) < a
      invariant Pow2(n) < 2 * a
      decreases a - Pow2(n)
    {
      n := n + 1;
    }
  }

  // A block at a power of two not below the alignment leads one alignment further.
  lemma AtPower(n: nat, align: nat)
    requires 0 < align <= Pow2(n)
    ensures AlignPtr(Pow2(n), align) == Pow2(n) + align
  {
    BitAlone(n, align - 1);
  }

  lemma Difference(p: nat, c: nat, m: nat) returns (q: nat)
    requires m > 0 && (p + c) % m == 0 && (2 * p + c) % m == 0
    ensures m * q == p
  {
    var x, y := (p + c) / m, (2 * p + c) / m;
    assert p + c == m * x && 2 * p + c == m * y;
    q := y - x;
    assert m * q == m * y - m * x;
  }

  // At two such addresses the result cannot be aligned unless the alignment is a
  // power of two.
  lemma LandsTwice(align0: nat, n: nat)
    requires align0 > 0 && 0 < RoundUp(align0, 4) <= Pow2(n)
    requires Lands(Pow2(n), align0) && Lands(Pow2(n + 1), align0)
    ensures IsPow2(align0)
  {
    hide RoundUp, AlignPtr, And;
    AtPower(n, RoundUp(align0, 4));
    AtPower(n + 1, RoundUp(align0, 4));
    var q := Difference(Pow2(n), RoundUp(align0, 4), align0);
    DividesPow2(align0, q, n);
  }

  // A power of two is met at every address; any other alignment is already missed
  // at some address below four times that alignment.
  lemma LandsExactly(align0: nat)
    requires align0 > 0
    ensures RoundUp(align0, 4) > 0
    ensures IsPow2(align0) <==>
      forall ptr: nat :: 0 < ptr < 4 * RoundUp(align0, 4) && ptr % 4 == 0 ==> Lands(ptr, align0)
    ensures IsPow2(align0) ==> forall ptr: nat :: Lands(ptr, align0)
  {
    hide Lands, RoundUp;
    RoundUp4(align0);
    if IsPow2(align0) {
      var k: nat :| align0 == Pow2(k);
      forall ptr: nat ensures Lands(ptr, align0) { LandsOnPower(ptr, k); }
    } else {
      var n := PowAt(RoundUp(align0, 4));
      assert Pow2(0) == 1 && Pow2(1) == 2;
      PowersOfFour(n);
      PowersOfFour(n + 1);
      if Lands(Pow2(n), align0) && Lands(Pow2(n + 1), align0) { LandsTwice(align0, n); }
    }
  }

  // An alignment of 12, and a block at 16: the result is 28.
  lemma TwelveMissed()
    ensures RoundUp(12, 4) == 12 && AlignPtr(16, 12) == 28 && !Lands(16, 12)
  {
    AndNotZero(3);
    BitAlone(4, 11);
  }

  // AlignPtr for an alignment of 0: in 32-bit arithmetic align - 1 is all ones.
  function AlignPtrZero(ptr: nat): nat
  {
    var ones := Pow2(32) - 1;
    if And(ptr, ones) == 0 then ptr else AndNot((ptr + ones) % Pow2(32), ones)
  }

  // No block passes for aligned then, and the mask leaves the null pointer.
  lemma ZeroIsLost(ptr: nat)
    requires 0 < ptr < Pow2(32)
    ensures And(ptr, Pow2(32) - 1) != 0 && AlignPtrZero(ptr) == 0
  {
    hide And, AndNot, Pow2;
    MaskIsMod(ptr, 32);
    SmallMod(ptr, Pow2(32));
    var y := (ptr + (Pow2(32) - 1)) % Pow2(32);
    MaskIsMod(y, 32);
    SmallMod(y, Pow2(32));
  }

  lemma IsFour()
    ensures Pow2(2) == 4
  {}

  // Block f of the heap is the one behind the aligned address.
  ghost predicate Behind(h: seq<int>, lay: seq<Block>, base: nat, f: nat, ptr: nat, size: nat) {
    && f < |lay| && lay[f].used && ptr % 4 == 0
    && base + 4 * (lay[f].start + HEADER) + 4 <= ptr
    && ptr + size <= base + 4 * (lay[f].start + lay[f].len)
    && 0 <= (ptr - 4 - base) / 4 < |h|
    && h[(ptr - 4 - base) / 4] == base + 4 * (lay[f].start + HEADER)
  }

  lemma AlignIsPower(k: nat)
    ensures RoundUp(Pow2(k), 4) == Pow2(if k < 2 then 2 else k)
  {
    hide RoundUp;
    IsFour();
    RoundUp4(Pow2(k));
    if k >= 2 { PowersOfFour(k); } else { assert Pow2(k) == 1 || Pow2(k) == 2; }
  }

  lemma {:induction false} PowersOfFour(k: nat)
    requires k >= 2
    ensures Pow2(k) % 4 == 0
  {
    if k > 2 { PowersOfFour(k - 1); } else { IsFour(); }
  }

  lemma GrantedRoom(lay: seq<Block>, f: nat, words: nat)
    requires f < |lay| && Fits(lay[f], words)
    ensures var r := Allocated(lay, f, words);
      f < |r| && r[f].used && r[f].start == lay[f].start && r[f].len >= HEADER + words
  {}

  // The saved pointer and the data lie inside `words` words from p on.
  lemma PlaceFacts(base: nat, p: nat, r: nat, size: nat, align: nat, words: nat)
    requires base % 4 == 0 && r % 4 == 0 && align % 4 == 0
    requires base + 4 * p + 4 <= r <= base + 4 * p + align
    requires words >= Words(RoundUp(size, 4) + align)
    ensures r + size <= base + 4 * (p + words)
    ensures p <= (r - 4 - base) / 4 < p + words && 4 * ((r - 4 - base) / 4) == r - 4 - base
  {
    hide RoundUp;
    RoundUp4(size);
  }

  method SavePointer(h: Heap, base: nat, r: nat, ptr: nat, ghost f: nat)
    requires h.Valid() && f < |h.lay| && base + 4 <= r
    requires h.lay[f].start + HEADER <= (r - 4 - base) / 4 < h.lay[f].start + h.lay[f].len
    modifies h.heap
    ensures h.Valid() && (r - 4 - base) / 4 < h.heap.Length && h.heap[(r - 4 - base) / 4] == ptr
    ensures LiveKept(old(h.heap[..]), h.lay[f := h.lay[f].(used := false)], h.heap[..])
  {
    ghost var h0 := h.heap[..];
    HeaderLinks(h0, h.lay, h.pool, h.End(), f);
    h.heap[(r - 4 - base) / 4] := ptr;
    DataWritten(h0, h.heap[..], h.lay, h.pool, h.End(), f);
  }

  lemma SavedLive(h0: seq<int>, l0: seq<Block>, h1: seq<int>, h2: seq<int>, f: nat, words: nat)
    requires f < |l0| && Fits(l0[f], words) && LiveKept(h0, l0, h1)
    requires var l1 := Allocated(l0, f, words); f < |l1| && LiveKept(h1, l1[f := l1[f].(used := false)], h2)
    ensures LiveKept(h0, l0, h2)
  {
    var l1 := Allocated(l0, f, words);
    forall j | 0 <= j < |l0| ensures KeptAt(h0, l0, h2, j) {
      if l0[j].used {
        AllocatedKeeps(l0, f, words, j);
        assert KeptAt(h0, l0, h1, j);
        assert KeptAt(h1, l1[f := l1[f].(used := false)], h2, Shifted(l0, f, words, j));
      }
    }
  }

  // The address of word w of a heap that lies in a 32-bit address space.
  lemma AddressFits(h: Heap, base: nat, f: nat)
    requires h.Valid() && f < |h.lay| && base + 4 * h.heap.Length <= Pow2(32)
    ensures 0 < base + 4 * (h.lay[f].start + HEADER) < Pow2(32)
  {
    hide Pow2;
    HeaderLinks(h.heap[..], h.lay, h.pool, h.End(), f);
  }

  // rt_malloc_align; 0 is RT_NULL. `stray` says that the pointer to the block was
  // saved in the last word of the address space, in front of address 0: that is what
  // an alignment of 0 leads to, and the block is lost.
  method MallocAlign(h: Heap, base: nat, size: nat, align0: nat) returns (r: nat, stray: bool)
    requires h.Valid() && base % 4 == 0 && base + 4 * h.heap.Length <= Pow2(32)
    modifies h, h.heap
    ensures h.Valid()
    ensures var words := Request(Words(RoundUp(size, 4) + RoundUp(align0, 4)));
      var f := if size == 0 && align0 == 0 then |old(h.lay)| else FirstFit(old(h.lay), words, 0);
      if f == |old(h.lay)| then r == 0 && !stray && h.heap[..] == old(h.heap[..]) && h.lay == old(h.lay)
      else
        && h.lay == Allocated(old(h.lay), f, words) && (stray <==> align0 == 0)
        && LiveKept(old(h.heap[..]), old(h.lay), h.heap[..])
        && (if stray then r == 0 else Behind(h.heap[..], h.lay, base, f, r, size))
        && (IsPow2(align0) ==> r % align0 == 0)
  {
    hide AlignPtr, AlignPtrZero, RoundUp, Pow2, And, AndNot, LiveKept, Mirrors, NoHoles, LowestFree, UsedWords, Cut;
    ghost var l0, h0 := h.lay, h.heap[..];
    RoundUp4(align0);
    RoundUp4(size);
    var align := RoundUp(align0, 4);
    var alignSize := RoundUp(size, 4) + align;
    ghost var words := Request(Words(alignSize));
    ghost var f := FirstFit(h.lay, words, 0);
    var p := h.Alloc(alignSize);
    r, stray := 0, false;
    if p != 0 {
      var ptr := base + 4 * p;
      GrantedRoom(l0, f, words);
      if align == 0 {
        AddressFits(h, base, f);
        ZeroIsLost(ptr);
        r := AlignPtrZero(ptr);
        stray := true;
        return;
      }
      AlignPtrRoom(ptr, align);
      PlaceFacts(base, p, AlignPtr(ptr, align), size, align, words);
      r := AlignPtr(ptr, align);
      ghost var h1 := h.heap[..];
      SavePointer(h, base, r, ptr, f);
      SavedLive(h0, l0, h1, h.heap[..], f, words);
      if k: nat :| align0 == Pow2(k) { LandsOnPower(ptr, k); }
    }
  }

  // rt_free_align
  method FreeAlign(h: Heap, base: nat, ptr: nat, ghost f: nat)
    requires h.Valid()
    requires ptr != 0 ==> Behind(h.heap[..], h.lay, base, f, ptr, 0)
    modifies h, h.heap
    ensures h.Valid()
    ensures ptr == 0 ==> h.lay == old(h.lay) && h.heap[..] == old(h.heap[..])
    ensures ptr != 0 ==>
        && h.lay == Freed(old(h.lay), f)
        && LiveKept(old(h.heap[..]), old(h.lay)[f := old(h.lay)[f].(used := false)], h.heap[..])
  {
    if ptr == 0 {
      return;
    }
    var saved := h.heap[(ptr - 4 - base) / 4];
    h.Free((saved - base) / 4, f);
  }
}
