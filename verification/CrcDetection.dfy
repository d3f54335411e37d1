// What the CRC is for: linearity, the residue of a frame that carries its own
// CRC, and the errors that are always detected.

module CrcDetection {
  import opened CrcCcitt

  lemma {:induction false} CrcAppend(crc: bv16, a: seq<Byte>, b: seq<Byte>)
    ensures Crc(crc, a + b) == Crc(Crc(crc, a), b)
    decreases |b|
  {
    hide CrcByte;
    if b == [] {
      assert a + b == a;
    } else {
      var front := b[..|b| - 1];
      CrcAppend(crc, a, front);
      assert (a + b)[..|a + b| - 1] == a + front && (a + b)[|a + b| - 1] == b[|b| - 1];
    }
  }

  // --- linearity ---------------------------------------------------------------------

  function XorBytes(a: seq<Byte>, b: seq<Byte>): (r: seq<Byte>)
    requires |a| == |b|
    ensures |r| == |a| && forall i :: 0 <= i < |a| ==> r[i] == a[i] ^ b[i]
  {
    seq(|a|, i requires 0 <= i < |a| => a[i] ^ b[i])
  }

  lemma Widen(a: bv16, b: bv16, c: Byte, d: Byte)
    ensures Plus(a, b) ^ ((c ^ d) as bv16) == Plus(a ^ (c as bv16), b ^ (d as bv16))
  {}

  lemma ByteLinear(a: bv16, b: bv16, c: Byte, d: Byte)
    ensures CrcByte(Plus(a, b), c ^ d) == Plus(CrcByte(a, c), CrcByte(b, d))
  {
    hide CrcByte, Shift8, Plus;
    ByteIsBitwise(Plus(a, b), c ^ d);
    ByteIsBitwise(a, c);
    ByteIsBitwise(b, d);
    Widen(a, b, c, d);
    Shift8Linear(a ^ (c as bv16), b ^ (d as bv16));
  }

  // The CRC of the xor of two messages is the xor of their CRCs.
  lemma {:induction false} CrcLinear(a: bv16, b: bv16, x: seq<Byte>, y: seq<Byte>)
    requires |x| == |y|
    ensures Crc(Plus(a, b), XorBytes(x, y)) == Plus(Crc(a, x), Crc(b, y))
    decreases |x|
  {
    hide CrcByte, Plus;
    if x != [] {
      var n := |x| - 1;
      assert XorBytes(x, y)[..n] == XorBytes(x[..n], y[..n]);
      CrcLinear(a, b, x[..n], y[..n]);
      ByteLinear(Crc(a, x[..n]), Crc(b, y[..n]), x[n], y[n]);
    }
  }

  // --- two bytes -----------------------------------------------------------------------

  // Two bytes as a little-endian word.
  function LittleEndian(lo: Byte, hi: Byte): bv16 {
    (lo as bv16) | ((hi as bv16) << 8)
  }

  lemma XorIsZero(a: bv16, b: bv16)
    ensures a ^ b == 0 <==> a == b
  {}

  lemma WordHigh(c: bv16, lo: Byte, hi: Byte)
    ensures (c ^ LittleEndian(lo, hi)) >> 8 == Plus(c >> 8, hi as bv16)
  {}

  lemma WordLow(c: bv16, lo: Byte, hi: Byte)
    ensures (c ^ LittleEndian(lo, hi)) & 0xff == (c ^ (lo as bv16)) & 0xff
  {}

  lemma XorMoves(a: bv16, b: bv16, c: bv16)
    ensures Plus(Plus(a, b), c) == Plus(Plus(a, c), b)
  {}

  lemma TwoShifts(c: bv16, lo: Byte, hi: Byte)
    ensures Plus(Shift8(c ^ (lo as bv16)), hi as bv16) == Shift8(c ^ LittleEndian(lo, hi))
  {
    hide Shift8, LittleEndian, Plus;
    WordHigh(c, lo, hi);
    WordLow(c, lo, hi);
    ByteFacts(c, lo);
    Shift8Bytes(c ^ (lo as bv16));
    Shift8Bytes(c ^ LittleEndian(lo, hi));
    XorMoves(c >> 8, Shift8((c ^ (lo as bv16)) & 0xff), hi as bv16);
  }

  // Two more bytes take the CRC to 0 exactly if they spell it.
  lemma TwoBytes(c: bv16, lo: Byte, hi: Byte)
    ensures CrcByte(CrcByte(c, lo), hi) == 0 <==> c == LittleEndian(lo, hi)
  {
    hide CrcByte, Shift8, LittleEndian;
    ByteIsBitwise(c, lo);
    ByteIsBitwise(CrcByte(c, lo), hi);
    TwoShifts(c, lo, hi);
    assert Shift8(CrcByte(c, lo) ^ (hi as bv16)) == Shift8(Plus(CrcByte(c, lo), hi as bv16));
    Shift8Zero(c ^ LittleEndian(lo, hi));
    Shift8Zero(Shift8(c ^ LittleEndian(lo, hi)));
    XorIsZero(c, LittleEndian(lo, hi));
  }

  lemma CrcOne(c: bv16, a: seq<Byte>, b: Byte)
    ensures Crc(c, a + [b]) == CrcByte(Crc(c, a), b)
  {
    hide CrcByte;
    assert (a + [b])[..|a|] == a;
  }

  lemma CrcTwo(c: bv16, a: seq<Byte>, lo: Byte, hi: Byte)
    ensures Crc(c, a + [lo, hi]) == CrcByte(CrcByte(Crc(c, a), lo), hi)
  {
    hide CrcByte;
    CrcOne(c, a, lo);
    CrcOne(c, a + [lo], hi);
    assert a + [lo, hi] == (a + [lo]) + [hi];
  }

  // A message followed by its own CRC has the CRC 0, and no other two bytes do.
  lemma Residue(msg: seq<Byte>, lo: Byte, hi: Byte)
    ensures Crc(0, msg + [lo, hi]) == 0 <==> Crc(0, msg) == LittleEndian(lo, hi)
  {
    CrcTwo(0, msg, lo, hi);
    TwoBytes(Crc(0, msg), lo, hi);
  }

  // --- detection -------------------------------------------------------------------------

  function Zeros(n: nat): (r: seq<Byte>)
    ensures |r| == n && forall i :: 0 <= i < n ==> r[i] == 0
  {
    seq(n, _ => 0)
  }

  lemma ZeroByte(c: bv16)
    ensures CrcByte(c, 0) == 0 <==> c == 0
  {
    hide CrcByte, Shift8;
    ByteIsBitwise(c, 0);
    assert c ^ ((0 as Byte) as bv16) == c;
    Shift8Zero(c);
  }

  // Running over zeros neither makes a CRC vanish nor appear.
  lemma {:induction false} CrcZeros(c: bv16, n: nat)
    ensures Crc(c, Zeros(n)) == 0 <==> c == 0
  {
    hide CrcByte;
    if n > 0 {
      assert Zeros(n)[..n - 1] == Zeros(n - 1);
      CrcZeros(c, n - 1);
      ZeroByte(Crc(c, Zeros(n - 1)));
    }
  }

  // The two messages are equal outside positions j and j + 1.
  ghost predicate DifferAt(x: seq<Byte>, y: seq<Byte>, j: nat) {
    && |x| == |y| && j + 1 < |x|
    && forall i :: 0 <= i < |x| && i != j && i != j + 1 ==> x[i] == y[i]
  }

  lemma BurstShape(x: seq<Byte>, y: seq<Byte>, j: nat)
    requires DifferAt(x, y, j)
    ensures XorBytes(x, y) == Zeros(j) + [x[j] ^ y[j], x[j + 1] ^ y[j + 1]] + Zeros(|x| - j - 2)
  {
    var e := XorBytes(x, y);
    forall i | 0 <= i < |x| && i != j && i != j + 1 ensures e[i] == 0 { SelfXor(x[i]); }
  }

  lemma SelfXor(a: Byte)
    ensures a ^ a == 0
  {}

  lemma ByteDiffers(a: Byte, b: Byte)
    ensures a ^ b == 0 <==> a == b
  {}

  lemma WordZero(lo: Byte, hi: Byte)
    ensures LittleEndian(lo, hi) == 0 <==> lo == 0 && hi == 0
  {}

  lemma BurstCrc(lo: Byte, hi: Byte, before: nat, after: nat)
    ensures Crc(0, Zeros(before) + [lo, hi] + Zeros(after)) == 0 <==> lo == 0 && hi == 0
  {
    hide CrcByte, LittleEndian;
    var a := Zeros(before);
    CrcZeros(0, before);
    CrcTwo(0, a, lo, hi);
    TwoBytes(0, lo, hi);
    WordZero(lo, hi);
    CrcAppend(0, a + [lo, hi], Zeros(after));
    CrcZeros(Crc(0, a + [lo, hi]), after);
  }

  lemma PlusZero(a: bv16, b: bv16)
    ensures Plus(a, b) == 0 <==> a == b
    ensures Plus(0, 0) == 0
  {
    XorFacts(a, b, 0);
  }

  // Whatever happens to two neighbouring bytes changes the CRC.
  lemma BurstDetected(x: seq<Byte>, y: seq<Byte>, j: nat)
    requires DifferAt(x, y, j)
    ensures Crc(0, x) == Crc(0, y) <==> x == y
  {
    hide CrcByte, Plus;
    BurstShape(x, y, j);
    BurstCrc(x[j] ^ y[j], x[j + 1] ^ y[j + 1], j, |x| - j - 2);
    PlusZero(Crc(0, x), Crc(0, y));
    CrcLinear(0, 0, x, y);
    ByteDiffers(x[j], y[j]);
    ByteDiffers(x[j + 1], y[j + 1]);
  }
}
