// C's bitwise operators on unsigned words, and both software versions of
// __rt_ffs (rt-thread/src/kservice.c).

module Bits {
  function Pow2(k: nat): (r: nat)
    ensures r > 0
  {
    if k == 0 then 1 else 2 * Pow2(k - 1)
  }

  lemma {:induction false} Pow2Add(a: nat, b: nat)
    ensures Pow2(a + b) == Pow2(a) * Pow2(b)
  {
    if a > 0 { Pow2Add(a - 1, b); }
  }

  // Is bit k of v set?
  predicate Bit(v: nat, k: nat) {
    if k == 0 then v % 2 == 1 else Bit(v / 2, k - 1)
  }

  // a | b
  function Or(a: nat, b: nat): nat
    decreases a + b
  {
    if a == 0 then b else if b == 0 then a
    else (if a % 2 == 1 || b % 2 == 1 then 1 else 0) + 2 * Or(a / 2, b / 2)
  }

  // a & b
  function And(a: nat, b: nat): nat
    decreases a + b
  {
    if a == 0 || b == 0 then 0
    else (if a % 2 == 1 && b % 2 == 1 then 1 else 0) + 2 * And(a / 2, b / 2)
  }

  // a & ~b
  function AndNot(a: nat, b: nat): nat
    decreases a
  {
    if a == 0 then 0
    else (if a % 2 == 1 && b % 2 == 0 then 1 else 0) + 2 * AndNot(a / 2, b / 2)
  }

  // a ^ b
  function Xor(a: nat, b: nat): nat
    decreases a + b
  {
    if a == 0 then b else if b == 0 then a
    else (if a % 2 != b % 2 then 1 else 0) + 2 * Xor(a / 2, b / 2)
  }

  lemma {:induction false} ZeroBit(k: nat)
    ensures !Bit(0, k)
  {
    if k > 0 { ZeroBit(k - 1); }
  }

  lemma {:induction false} OrBit(a: nat, b: nat, k: nat)
    ensures Bit(Or(a, b), k) <==> Bit(a, k) || Bit(b, k)
    decreases a + b
  {
    ZeroBit(k);
    if a != 0 && b != 0 && k > 0 { OrBit(a / 2, b / 2, k - 1); }
  }

  lemma {:induction false} AndNotBit(a: nat, b: nat, k: nat)
    ensures Bit(AndNot(a, b), k) <==> Bit(a, k) && !Bit(b, k)
    decreases a
  {
    ZeroBit(k);
    if a != 0 && k > 0 { AndNotBit(a / 2, b / 2, k - 1); }
  }

  lemma {:induction false} PowBit(p: nat, k: nat)
    ensures Bit(Pow2(p), k) <==> p == k
  {
    if p == 0 {
      if k > 0 { ZeroBit(k - 1); }
    } else if k > 0 {
      PowBit(p - 1, k - 1);
    }
  }

  // The index of the lowest bit set.
  function Lowest(v: nat): nat
    requires v > 0
  {
    if v % 2 == 1 then 0 else Lowest(v / 2) + 1
  }

  lemma {:induction false} LowestIsSet(v: nat)
    requires v > 0
    ensures Bit(v, Lowest(v))
    ensures forall j: nat :: j < Lowest(v) ==> !Bit(v, j)
  {
    if v % 2 == 0 {
      LowestIsSet(v / 2);
      forall j: nat | j < Lowest(v) ensures !Bit(v, j) {
        if j > 0 { assert !Bit(v / 2, j - 1); }
      }
    }
  }

  // A word none of whose bits is set.
  lemma NoBits(v: nat)
    requires forall k: nat :: !Bit(v, k)
    ensures v == 0
  {
    if v > 0 { LowestIsSet(v); }
  }

  lemma {:induction false} BitBelow(v: nat, k: nat, n: nat)
    requires Bit(v, k) && v < Pow2(n)
    ensures k < n
    decreases n
  {
    if n == 0 { ZeroBit(k); }
    else if k > 0 { BitBelow(v / 2, k - 1, n - 1); }
  }

  // A word whose bits all lie below n.
  lemma {:induction false} FewBits(v: nat, n: nat)
    requires forall k: nat :: Bit(v, k) ==> k < n
    ensures v < Pow2(n)
  {
    if n == 0 {
      NoBits(v);
    } else {
      forall k: nat | Bit(v / 2, k) ensures k < n - 1 { assert Bit(v, k + 1); }
      FewBits(v / 2, n - 1);
    }
  }

  // --- __rt_ffs -------------------------------------------------------------

  // __lowest_bit_bitmap, row by row
  const LOWEST_BIT_BITMAP: seq<seq<nat>> := [
    [0, 0, 1, 0, 2, 0, 1, 0, 3, 0, 1, 0, 2, 0, 1, 0],
    [4, 0, 1, 0, 2, 0, 1, 0, 3, 0, 1, 0, 2, 0, 1, 0],
    [5, 0, 1, 0, 2, 0, 1, 0, 3, 0, 1, 0, 2, 0, 1, 0],
    [4, 0, 1, 0, 2, 0, 1, 0, 3, 0, 1, 0, 2, 0, 1, 0],
    [6, 0, 1, 0, 2, 0, 1, 0, 3, 0, 1, 0, 2, 0, 1, 0],
    [4, 0, 1, 0, 2, 0, 1, 0, 3, 0, 1, 0, 2, 0, 1, 0],
    [5, 0, 1, 0, 2, 0, 1, 0, 3, 0, 1, 0, 2, 0, 1, 0],
    [4, 0, 1, 0, 2, 0, 1, 0, 3, 0, 1, 0, 2, 0, 1, 0],
    [7, 0, 1, 0, 2, 0, 1, 0, 3, 0, 1, 0, 2, 0, 1, 0],
    [4, 0, 1, 0, 2, 0, 1, 0, 3, 0, 1, 0, 2, 0, 1, 0],
    [5, 0, 1, 0, 2, 0, 1, 0, 3, 0, 1, 0, 2, 0, 1, 0],
    [4, 0, 1, 0, 2, 0, 1, 0, 3, 0, 1, 0, 2, 0, 1, 0],
    [6, 0, 1, 0, 2, 0, 1, 0, 3, 0, 1, 0, 2, 0, 1, 0],
    [4, 0, 1, 0, 2, 0, 1, 0, 3, 0, 1, 0, 2, 0, 1, 0],
    [5, 0, 1, 0, 2, 0, 1, 0, 3, 0, 1, 0, 2, 0, 1, 0],
    [4, 0, 1, 0, 2, 0, 1, 0, 3, 0, 1, 0, 2, 0, 1, 0]
  ]

  function LowestBitBitmap(b: nat): nat
    requires b < 256
  {
    BitmapEntry(b / 16, b % 16)
  }

  function BitmapEntry(r: nat, c: nat): nat
    requires r < 16 && c < 16
  {
    LOWEST_BIT_BITMAP[r][c]
  }

  // The version that looks at one byte after the other.
  function Ffs(value: nat): nat
    requires value < 0x1_0000_0000
  {
    if value == 0 then 0
    else if value % 256 != 0 then LowestBitBitmap(value % 256) + 1
    else if value / 256 % 256 != 0 then LowestBitBitmap(value / 256 % 256) + 9
    else if value / 0x10000 % 256 != 0 then LowestBitBitmap(value / 0x10000 % 256) + 17
    else LowestBitBitmap(value / 0x1000000 % 256) + 25
  }

  lemma LowestEven(v: nat)
    requires v > 0
    ensures Lowest(2 * v) == Lowest(v) + 1 && Lowest(2 * v - 1) == 0
  {
    assert 2 * v % 2 == 0 && 2 * v / 2 == v && (2 * v - 1) % 2 == 1;
  }

  // Looking at the low n bits first.
  lemma {:induction false} LowestMixed(h: nat, l: nat, n: nat)
    requires l < Pow2(n) && h + l > 0
    ensures Pow2(n) * h + l > 0
    ensures l > 0 ==> Lowest(Pow2(n) * h + l) == Lowest(l)
    ensures l == 0 ==> h > 0 && Lowest(Pow2(n) * h) == Lowest(h) + n
  {
    if n == 0 { return; }
    var m := Pow2(n - 1) * h;
    assert Pow2(n) * h == 2 * m;
    if l % 2 == 0 { LowestMixed(h, l / 2, n - 1); }
    assert (2 * m + l) / 2 == m + l / 2 && (2 * m + l) % 2 == l % 2;
  }

  lemma NibbleLowest()
    ensures forall c :: 0 < c < 16 ==> LOWEST_BIT_BITMAP[0][c] == Lowest(c)
  {
    assert Lowest(1) == 0 && Lowest(2) == 1 && Lowest(4) == 2 && Lowest(8) == 3;
    LowestEven(3); LowestEven(5); LowestEven(6); LowestEven(7); LowestEven(8);
    LowestEven(1); LowestEven(2); LowestEven(4);
  }

  lemma NibbleRows(r: nat)
    requires 0 < r < 16
    ensures LOWEST_BIT_BITMAP[r][1..] == LOWEST_BIT_BITMAP[0][1..]
    ensures LOWEST_BIT_BITMAP[r][0] == LOWEST_BIT_BITMAP[0][r] + 4
  {}

  lemma LowestOfNibbles(r: nat, c: nat)
    requires c < 16 && r + c > 0
    ensures c > 0 ==> Lowest(16 * r + c) == Lowest(c)
    ensures c == 0 ==> Lowest(16 * r) == Lowest(r) + 4
  {
    assert Pow2(4) == 16;
    LowestMixed(r, c, 4);
  }

  lemma BitmapEntryIs(r: nat, c: nat)
    requires r < 16 && c < 16 && r + c > 0
    ensures BitmapEntry(r, c) == Lowest(16 * r + c)
  {
    hide Lowest;
    LowestOfNibbles(r, c);
    NibbleLowest();
    if r > 0 {
      NibbleRows(r);
      var row, first := LOWEST_BIT_BITMAP[r], LOWEST_BIT_BITMAP[0];
      if c > 0 { assert row[1..][c - 1] == first[1..][c - 1]; }
    }
  }

  lemma TableIsLowest(b: nat)
    requires 0 < b < 256
    ensures LowestBitBitmap(b) == Lowest(b)
  {
    var r, c := b / 16, b % 16;
    assert b == 16 * r + c;
    BitmapEntryIs(r, c);
  }

  lemma LowestByte(v: nat)
    requires v > 0
    ensures v % 256 > 0 ==> Lowest(v) == LowestBitBitmap(v % 256)
    ensures v % 256 == 0 ==> v / 256 > 0 && Lowest(v) == Lowest(v / 256) + 8
  {
    hide Lowest, LowestBitBitmap;
    var h, l := v / 256, v % 256;
    assert Pow2(8) == 256 && v == 256 * h + l;
    LowestMixed(h, l, 8);
    if l > 0 { TableIsLowest(l); }
  }

  lemma Bytes(v: nat)
    requires v < 0x1_0000_0000
    ensures v / 256 / 256 == v / 0x10000 && v / 0x10000 / 256 == v / 0x1000000
    ensures v / 0x1000000 % 256 == v / 0x1000000
  {}

  // __rt_ffs finds the lowest bit set, counting from 1.
  lemma FfsIsLowest(value: nat)
    requires value < 0x1_0000_0000
    ensures value > 0 ==> Ffs(value) == Lowest(value) + 1
    ensures value == 0 <==> Ffs(value) == 0
  {
    if value > 0 {
      Bytes(value);
      LowestByte(value);
      if value % 256 == 0 { LowestByte(value / 256); FfsHigh(value); }
    }
  }

  lemma FfsHigh(value: nat)
    requires 0 < value < 0x1_0000_0000 && value % 256 == 0 && value / 256 > 0
    ensures Ffs(value) == Lowest(value / 256) + 9
  {
    Bytes(value);
    LowestByte(value / 256);
    if value / 256 % 256 == 0 {
      LowestByte(value / 0x10000);
      if value / 0x10000 % 256 == 0 { LowestByte(value / 0x1000000); }
    }
  }

  // The RT_USING_TINY_FFS version: isolate the lowest bit, and look its value
  // up modulo 37.
  const TINY_BITMAP: seq<nat> := [
    0, 1, 2, 27, 3, 24, 28, 32,
    4, 17, 25, 31, 29, 12, 32, 14,
    5, 8, 18, 32, 26, 23, 32, 16,
    30, 11, 13, 7, 32, 22, 15, 10,
    6, 21, 9, 20, 19
  ]

  function TinyFfs(value: nat): nat
    requires value < 0x1_0000_0000
  {
    var less := if value == 0 then 0xFFFF_FFFF else value - 1;
    TINY_BITMAP[Xor(And(value, less), value) % 37]
  }

  lemma {:induction false} LowestIsolated(v: nat)
    requires v > 0
    ensures Xor(And(v, v - 1), v) == Pow2(Lowest(v))
  {
    if v % 2 == 1 {
      AndSelf(v / 2);
      XorSelf(v / 2);
    } else {
      LowestIsolated(v / 2);
    }
  }

  lemma {:induction false} AndSelf(a: nat)
    ensures And(a, a) == a
  {
    if a != 0 { AndSelf(a / 2); }
  }

  lemma {:induction false} XorSelf(a: nat)
    ensures Xor(a, a) == 0
  {
    if a != 0 { XorSelf(a / 2); }
  }

  // Pow2(k) % 37
  const RESIDUES: seq<nat> := [
    1, 2, 4, 8, 16, 32, 27, 17,
    34, 31, 25, 13, 26, 15, 30, 23,
    9, 18, 36, 35, 33, 29, 21, 5,
    10, 20, 3, 6, 12, 24, 11, 22
  ]

  lemma ResidueStep(k: nat)
    requires 0 < k < 32
    ensures RESIDUES[k] == 2 * RESIDUES[k - 1] % 37
  {}

  lemma ModDouble(x: nat)
    ensures 2 * x % 37 == 2 * (x % 37) % 37
  {}

  lemma {:induction false} Residue(k: nat)
    requires k < 32
    ensures Pow2(k) % 37 == RESIDUES[k]
  {
    if k > 0 {
      Residue(k - 1);
      ResidueStep(k);
      ModDouble(Pow2(k - 1));
    }
  }

  lemma TinyTableLow(k: nat)
    requires k < 16
    ensures RESIDUES[k] < 37 && TINY_BITMAP[RESIDUES[k]] == k + 1
  {}

  lemma TinyTableHigh(k: nat)
    requires 16 <= k < 32
    ensures RESIDUES[k] < 37 && TINY_BITMAP[RESIDUES[k]] == k + 1
  {}

  lemma WordBit(value: nat)
    requires 0 < value < 0x1_0000_0000
    ensures Lowest(value) < 32
  {
    assert Pow2(8) == 256;
    Pow2Add(8, 8);
    Pow2Add(16, 16);
    LowestIsSet(value);
    BitBelow(value, Lowest(value), 32);
  }

  // Both versions of __rt_ffs agree on every word.
  lemma TinyFfsIsFfs(value: nat)
    requires value < 0x1_0000_0000
    ensures TinyFfs(value) == Ffs(value)
  {
    FfsIsLowest(value);
    if value > 0 {
      LowestIsolated(value);
      WordBit(value);
      Residue(Lowest(value));
      if Lowest(value) < 16 { TinyTableLow(Lowest(value)); } else { TinyTableHigh(Lowest(value)); }
    }
  }
}
