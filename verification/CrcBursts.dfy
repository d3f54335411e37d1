// Burst errors. The CRC is run one bit at a time over the bits of the message,
// the low bit of each byte first; a change confined to 16 consecutive bits,
// wherever they start, is always detected.

module CrcBursts {
  import opened CrcCcitt
  import opened CrcDetection

  function BitWord(b: bool): bv16 {
    if b then 1 else 0
  }

  // The CRC of a stream of bits.
  function CrcBits(c: bv16, bits: seq<bool>): bv16
    decreases |bits|
  {
    if bits == [] then c else CrcBits(Shift(Plus(c, BitWord(bits[0]))), bits[1..])
  }

  predicate Odd(v: bv16) {
    v & 1 == 1
  }

  function Half(v: bv16): bv16 {
    v >> 1
  }

  function Double(v: bv16): bv16 {
    v << 1
  }

  // The n low bits of a word, lowest first.
  function LowBitsOf(v: bv16, n: nat): (r: seq<bool>)
    ensures |r| == n
    decreases n
  {
    if n == 0 then [] else [Odd(v)] + LowBitsOf(Half(v), n - 1)
  }

  function ByteBitsOf(b: Byte): (r: seq<bool>)
    ensures |r| == 8
  {
    LowBitsOf(b as bv16, 8)
  }

  function MessageBits(buffer: seq<Byte>): (r: seq<bool>)
    ensures |r| == 8 * |buffer|
    decreases |buffer|
  {
    if buffer == [] then [] else MessageBits(buffer[..|buffer| - 1]) + ByteBitsOf(buffer[|buffer| - 1])
  }

  // --- bit by bit is byte by byte -----------------------------------------------------

  function ShiftN(x: bv16, n: nat): bv16
    decreases n
  {
    if n == 0 then x else ShiftN(Shift(x), n - 1)
  }

  function HalfN(v: bv16, n: nat): bv16
    decreases n
  {
    if n == 0 then v else HalfN(Half(v), n - 1)
  }

  lemma EvenRest(v: bv16)
    ensures var e := v ^ BitWord(Odd(v)); e & 1 != 1 && e >> 1 == v >> 1
  {}

  lemma PlusFacts(a: bv16, b: bv16, c: bv16)
    ensures Plus(Plus(a, b), Plus(c, b)) == Plus(a, c) && Plus(a, 0) == a
    ensures Plus(a, b) == c <==> a == Plus(b, c)
  {
    XorFacts(a, c, b);
    XorFacts(a, b, c);
    PlusSolve(a, b, c);
  }

  lemma PlusMore(a: bv16, b: bv16, c: bv16)
    ensures Plus(a, Plus(b, c)) == Plus(Plus(a, b), c) && Plus(Plus(a, c), b) == Plus(Plus(a, b), c)
  {
    XorFacts(a, b, c);
  }

  lemma PlusSolve(a: bv16, b: bv16, c: bv16)
    ensures Plus(a, b) == c <==> a == Plus(b, c)
  {
    PlusMore(a, b, c);
    PlusZero(Plus(a, b), c);
    PlusZero(a, Plus(b, c));
    hide Plus;
  }

  // Only the low bit of what is added passes through the feedback.
  lemma ShiftSplit(c: bv16, v: bv16)
    ensures Shift(Plus(c, v)) == Plus(Shift(Plus(c, BitWord(Odd(v)))), Half(v))
  {
    var b := BitWord(Odd(v));
    EvenRest(v);
    assert Shift(Plus(v, b)) == Half(v);
    hide Shift, Plus, BitWord, Half, Odd;
    ShiftLinear(Plus(c, b), Plus(v, b));
    PlusFacts(c, b, v);
  }

  lemma {:induction false} ShiftBits(c: bv16, v: bv16, n: nat)
    ensures ShiftN(Plus(c, v), n) == Plus(CrcBits(c, LowBitsOf(v, n)), HalfN(v, n))
    decreases n
  {
    hide Shift, BitWord, Plus, Half, Odd;
    if n > 0 {
      ShiftSplit(c, v);
      var bits := LowBitsOf(v, n);
      assert bits[0] == Odd(v) && bits[1..] == LowBitsOf(Half(v), n - 1);
      ShiftBits(Shift(Plus(c, BitWord(bits[0]))), Half(v), n - 1);
    }
  }

  lemma ShiftEight(x: bv16)
    ensures ShiftN(x, 8) == Shift8(x)
  {
    hide Shift;
  }

  lemma ByteIsSpent(b: Byte)
    ensures HalfN(b as bv16, 8) == 0
  {}

  lemma ByteByBits(c: bv16, b: Byte)
    ensures CrcByte(c, b) == CrcBits(c, ByteBitsOf(b))
  {
    hide CrcByte, Shift8, ShiftN, HalfN, CrcBits, LowBitsOf;
    ByteIsBitwise(c, b);
    assert CrcByte(c, b) == Shift8(Plus(c, b as bv16));
    hide Plus;
    ShiftBits(c, b as bv16, 8);
    ShiftEight(Plus(c, b as bv16));
    ByteIsSpent(b);
    PlusFacts(CrcBits(c, ByteBitsOf(b)), 0, 0);
  }

  lemma {:induction false} CrcBitsAppend(c: bv16, a: seq<bool>, b: seq<bool>)
    ensures CrcBits(c, a + b) == CrcBits(CrcBits(c, a), b)
    decreases |a|
  {
    hide Shift, BitWord, Plus;
    if a == [] {
      assert a + b == b;
    } else {
      assert (a + b)[1..] == a[1..] + b;
      CrcBitsAppend(Shift(Plus(c, BitWord(a[0]))), a[1..], b);
    }
  }

  lemma {:induction false} CrcByBits(c: bv16, buffer: seq<Byte>)
    ensures Crc(c, buffer) == CrcBits(c, MessageBits(buffer))
    decreases |buffer|
  {
    hide CrcByte, ByteBitsOf;
    if buffer != [] {
      var front, last := buffer[..|buffer| - 1], buffer[|buffer| - 1];
      CrcByBits(c, front);
      ByteByBits(Crc(c, front), last);
      CrcBitsAppend(c, MessageBits(front), ByteBitsOf(last));
    }
  }

  // --- sixteen bits spell one word ---------------------------------------------------------

  // The word whose low bits are these, lowest first.
  function Spelled(bits: seq<bool>): bv16
    decreases |bits|
  {
    if bits == [] then 0 else Plus(BitWord(bits[0]), Double(Spelled(bits[1..])))
  }

  lemma {:induction false} HalfMore(v: bv16, n: nat)
    requires HalfN(v, n) == 0
    ensures HalfN(v, n + 1) == 0
    decreases n
  {
    if n > 0 { HalfMore(Half(v), n - 1); }
  }

  lemma {:induction false} HalfUpTo(v: bv16, n: nat, m: nat)
    requires HalfN(v, n) == 0 && n <= m
    ensures HalfN(v, m) == 0
    decreases m - n
  {
    if n < m {
      HalfMore(v, n);
      HalfUpTo(v, n + 1, m);
    }
  }

  lemma {:induction false} HalfSplit(v: bv16, a: nat, b: nat)
    ensures HalfN(v, a + b) == HalfN(HalfN(v, a), b)
    decreases a
  {
    if a > 0 { HalfSplit(Half(v), a - 1, b); }
  }

  lemma HalfFive(v: bv16)
    ensures HalfN(v, 5) == v >> 5
  {
    HalfFiveBits(v);
  }

  lemma HalfFiveBits(v: bv16)
    ensures v >> 1 >> 1 >> 1 >> 1 >> 1 == v >> 5
  {}

  lemma TopBit(v: bv16)
    ensures v >> 5 >> 5 >> 5 == 0 ==> v & 0x8000 == 0
  {}

  lemma TopClear(v: bv16)
    requires HalfN(v, 15) == 0
    ensures v & 0x8000 == 0
  {
    hide HalfN;
    HalfSplit(v, 5, 10);
    HalfSplit(v >> 5, 5, 5);
    HalfFive(v);
    HalfFive(v >> 5);
    HalfFive(v >> 5 >> 5);
    TopBit(v);
  }

  lemma Doubled(b: bool, v: bv16)
    requires v & 0x8000 == 0
    ensures Half(Plus(BitWord(b), Double(v))) == v
    ensures Plus(BitWord(b), Double(v)) == 0 <==> !b && v == 0
  {}

  lemma HalfOfDoubled(b: bool, v: bv16, n: nat)
    requires v & 0x8000 == 0 && n > 0
    ensures HalfN(Plus(BitWord(b), Double(v)), n) == HalfN(v, n - 1)
  {
    hide Plus, BitWord, Double, Half;
    Doubled(b, v);
  }

  lemma TopClearBelow(v: bv16, n: nat)
    requires HalfN(v, n) == 0 && n <= 15
    ensures v & 0x8000 == 0
  {
    HalfUpTo(v, n, 15);
    TopClear(v);
  }

  lemma NothingSpelled()
    ensures HalfN(Spelled([]), 0) == 0
  {}

  // n bits spell a word of n bits.
  lemma {:induction false} SpelledFits(bits: seq<bool>)
    requires |bits| <= 16
    ensures HalfN(Spelled(bits), |bits|) == 0
    ensures |bits| <= 15 ==> Spelled(bits) & 0x8000 == 0
    decreases |bits|
  {
    hide Plus, BitWord, HalfN, Double;
    if bits == [] {
      NothingSpelled();
    } else {
      var v := Spelled(bits[1..]);
      SpelledFits(bits[1..]);
      HalfOfDoubled(bits[0], v, |bits|);
    }
    if |bits| <= 15 { TopClearBelow(Spelled(bits), |bits|); }
  }

  lemma ShiftOfDouble(v: bv16)
    requires v & 0x8000 == 0
    ensures Shift(Double(v)) == v
  {}

  // A shift that ends below the top bit had that, doubled, in front of it.
  lemma ShiftIs(x: bv16, v: bv16)
    requires v & 0x8000 == 0
    ensures Shift(x) == v <==> x == Double(v)
  {
    hide Shift, Double, Plus;
    ShiftOfDouble(v);
    ShiftLinear(x, Double(v));
    ShiftZero(Plus(x, Double(v)));
    PlusZero(x, Double(v));
    PlusZero(Shift(x), v);
  }

  // Up to 16 bits take the CRC to 0 exactly if they spell it.
  lemma {:induction false} BitsAnnihilate(c: bv16, bits: seq<bool>)
    requires |bits| <= 16
    ensures CrcBits(c, bits) == 0 <==> c == Spelled(bits)
    decreases |bits|
  {
    hide Shift, BitWord, Plus, Double;
    if bits != [] {
      var b, v := BitWord(bits[0]), Spelled(bits[1..]);
      SpelledFits(bits[1..]);
      BitsAnnihilate(Shift(Plus(c, b)), bits[1..]);
      ShiftIs(Plus(c, b), v);
      PlusFacts(c, b, Double(v));
    }
  }

  // --- bursts ------------------------------------------------------------------------------

  function XorBits(a: seq<bool>, b: seq<bool>): (r: seq<bool>)
    requires |a| == |b|
    ensures |r| == |a| && forall i :: 0 <= i < |a| ==> r[i] == (a[i] != b[i])
  {
    seq(|a|, i requires 0 <= i < |a| => a[i] != b[i])
  }

  lemma BitSum(p: bool, q: bool)
    ensures BitWord(p != q) == Plus(BitWord(p), BitWord(q))
  {}

  lemma Exchange(a: bv16, b: bv16, c: bv16, d: bv16)
    ensures Plus(Plus(a, b), Plus(c, d)) == Plus(Plus(a, c), Plus(b, d))
  {
    hide Plus;
    PlusMore(Plus(a, b), c, d);
    PlusMore(Plus(a, c), b, d);
    PlusMore(a, b, c);
  }

  lemma {:induction false} CrcBitsLinear(a: bv16, b: bv16, p: seq<bool>, q: seq<bool>)
    requires |p| == |q|
    ensures CrcBits(Plus(a, b), XorBits(p, q)) == Plus(CrcBits(a, p), CrcBits(b, q))
    decreases |p|
  {
    hide Shift, BitWord, Plus;
    if p != [] {
      assert XorBits(p, q)[1..] == XorBits(p[1..], q[1..]);
      var u, v := BitWord(p[0]), BitWord(q[0]);
      BitSum(p[0], q[0]);
      Exchange(a, b, u, v);
      ShiftLinear(Plus(a, u), Plus(b, v));
      CrcBitsLinear(Shift(Plus(a, u)), Shift(Plus(b, v)), p[1..], q[1..]);
    }
  }

  function Clear(n: nat): (r: seq<bool>)
    ensures |r| == n && forall i :: 0 <= i < n ==> !r[i]
  {
    seq(n, _ => false)
  }

  lemma {:induction false} CrcClear(c: bv16, n: nat)
    ensures CrcBits(c, Clear(n)) == 0 <==> c == 0
    decreases n
  {
    hide Shift, Plus;
    if n > 0 {
      assert Clear(n)[1..] == Clear(n - 1);
      PlusFacts(c, 0, 0);
      CrcClear(Shift(c), n - 1);
      ShiftZero(c);
    }
  }

  lemma {:induction false} SpelledZero(bits: seq<bool>)
    requires |bits| <= 16
    ensures Spelled(bits) == 0 <==> bits == Clear(|bits|)
    decreases |bits|
  {
    hide Plus, BitWord, Double;
    if bits != [] {
      SpelledFits(bits[1..]);
      Doubled(bits[0], Spelled(bits[1..]));
      SpelledZero(bits[1..]);
      assert Clear(|bits|)[1..] == Clear(|bits| - 1);
      assert bits == [bits[0]] + bits[1..] && Clear(|bits|) == [false] + Clear(|bits| - 1);
    }
  }

  // The two streams agree outside the n bits from i on.
  ghost predicate AgreeOutside(p: seq<bool>, q: seq<bool>, i: nat, n: nat) {
    && |p| == |q| && i + n <= |p|
    && forall k :: 0 <= k < |p| && !(i <= k < i + n) ==> p[k] == q[k]
  }

  lemma BitBurst(p: seq<bool>, q: seq<bool>, i: nat, n: nat)
    requires AgreeOutside(p, q, i, n) && n <= 16
    ensures CrcBits(0, p) == CrcBits(0, q) <==> p == q
  {
    hide CrcBits, Shift, Plus;
    var e := XorBits(p, q);
    var w := e[i..i + n];
    assert e == Clear(i) + w + Clear(|p| - i - n);
    CrcBitsLinear(0, 0, p, q);
    PlusZero(CrcBits(0, p), CrcBits(0, q));
    CrcBitsAppend(0, Clear(i) + w, Clear(|p| - i - n));
    CrcBitsAppend(0, Clear(i), w);
    CrcClear(0, i);
    CrcClear(CrcBits(0, Clear(i) + w), |p| - i - n);
    BitsAnnihilate(0, w);
    SpelledZero(w);
    if w == Clear(n) {
      forall k | 0 <= k < |p| ensures p[k] == q[k] {
        assert e[k] == (p[k] != q[k]);
        if i <= k < i + n { assert w[k - i] == e[k]; }
      }
    }
    if p == q { assert w == Clear(n); }
  }

  // --- no two messages have the same bits ------------------------------------------------------

  lemma HalfIs(v: bv16)
    ensures v == Plus(BitWord(Odd(v)), Double(Half(v)))
  {}

  lemma {:induction false} SpelledByte(v: bv16, n: nat)
    requires HalfN(v, n) == 0
    ensures Spelled(LowBitsOf(v, n)) == v
    decreases n
  {
    hide Plus, BitWord, Double, Half, Odd;
    if n > 0 {
      SpelledByte(Half(v), n - 1);
      HalfIs(v);
      assert LowBitsOf(v, n)[1..] == LowBitsOf(Half(v), n - 1);
    }
  }

  lemma ByteBitsDiffer(a: Byte, b: Byte)
    requires ByteBitsOf(a) == ByteBitsOf(b)
    ensures a == b
  {
    ByteIsSpent(a);
    ByteIsSpent(b);
    SpelledByte(a as bv16, 8);
    SpelledByte(b as bv16, 8);
  }

  lemma {:induction false} MessageBitsDiffer(x: seq<Byte>, y: seq<Byte>)
    requires |x| == |y| && MessageBits(x) == MessageBits(y)
    ensures x == y
    decreases |x|
  {
    hide ByteBitsOf;
    if x != [] {
      var n := |x| - 1;
      var a, b := MessageBits(x[..n]), MessageBits(y[..n]);
      assert MessageBits(x)[..|a|] == a && MessageBits(y)[..|b|] == b;
      assert MessageBits(x)[|a|..] == ByteBitsOf(x[n]) && MessageBits(y)[|b|..] == ByteBitsOf(y[n]);
      MessageBitsDiffer(x[..n], y[..n]);
      ByteBitsDiffer(x[n], y[n]);
      assert x == x[..n] + [x[n]] && y == y[..n] + [y[n]];
    }
  }

  // Any change confined to 16 consecutive bits of a message changes its CRC.
  lemma BurstOf16Detected(x: seq<Byte>, y: seq<Byte>, i: nat, n: nat)
    requires |x| == |y| && AgreeOutside(MessageBits(x), MessageBits(y), i, n) && n <= 16
    ensures Crc(0, x) == Crc(0, y) <==> x == y
  {
    CrcByBits(0, x);
    CrcByBits(0, y);
    BitBurst(MessageBits(x), MessageBits(y), i, n);
    if MessageBits(x) == MessageBits(y) { MessageBitsDiffer(x, y); }
  }
}
