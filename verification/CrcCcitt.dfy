// CRC-CCITT by table (drivers/include/crc_ccitt.h) against its definition, one
// bit at a time with the polynomial 0x8408: the FCS of Appendix C.2 of RFC 1662,
// but with initial value 0 and no final complement.

module CrcCcitt {
  type Byte = bv8

  // crc_ccitt_table, row by row
  const TABLE: seq<seq<bv16>> := [
    [0x0000, 0x1189, 0x2312, 0x329b, 0x4624, 0x57ad, 0x6536, 0x74bf],
    [0x8c48, 0x9dc1, 0xaf5a, 0xbed3, 0xca6c, 0xdbe5, 0xe97e, 0xf8f7],
    [0x1081, 0x0108, 0x3393, 0x221a, 0x56a5, 0x472c, 0x75b7, 0x643e],
    [0x9cc9, 0x8d40, 0xbfdb, 0xae52, 0xdaed, 0xcb64, 0xf9ff, 0xe876],
    [0x2102, 0x308b, 0x0210, 0x1399, 0x6726, 0x76af, 0x4434, 0x55bd],
    [0xad4a, 0xbcc3, 0x8e58, 0x9fd1, 0xeb6e, 0xfae7, 0xc87c, 0xd9f5],
    [0x3183, 0x200a, 0x1291, 0x0318, 0x77a7, 0x662e, 0x54b5, 0x453c],
    [0xbdcb, 0xac42, 0x9ed9, 0x8f50, 0xfbef, 0xea66, 0xd8fd, 0xc974],
    [0x4204, 0x538d, 0x6116, 0x709f, 0x0420, 0x15a9, 0x2732, 0x36bb],
    [0xce4c, 0xdfc5, 0xed5e, 0xfcd7, 0x8868, 0x99e1, 0xab7a, 0xbaf3],
    [0x5285, 0x430c, 0x7197, 0x601e, 0x14a1, 0x0528, 0x37b3, 0x263a],
    [0xdecd, 0xcf44, 0xfddf, 0xec56, 0x98e9, 0x8960, 0xbbfb, 0xaa72],
    [0x6306, 0x728f, 0x4014, 0x519d, 0x2522, 0x34ab, 0x0630, 0x17b9],
    [0xef4e, 0xfec7, 0xcc5c, 0xddd5, 0xa96a, 0xb8e3, 0x8a78, 0x9bf1],
    [0x7387, 0x620e, 0x5095, 0x411c, 0x35a3, 0x242a, 0x16b1, 0x0738],
    [0xffcf, 0xee46, 0xdcdd, 0xcd54, 0xb9eb, 0xa862, 0x9af9, 0x8b70],
    [0x8408, 0x9581, 0xa71a, 0xb693, 0xc22c, 0xd3a5, 0xe13e, 0xf0b7],
    [0x0840, 0x19c9, 0x2b52, 0x3adb, 0x4e64, 0x5fed, 0x6d76, 0x7cff],
    [0x9489, 0x8500, 0xb79b, 0xa612, 0xd2ad, 0xc324, 0xf1bf, 0xe036],
    [0x18c1, 0x0948, 0x3bd3, 0x2a5a, 0x5ee5, 0x4f6c, 0x7df7, 0x6c7e],
    [0xa50a, 0xb483, 0x8618, 0x9791, 0xe32e, 0xf2a7, 0xc03c, 0xd1b5],
    [0x2942, 0x38cb, 0x0a50, 0x1bd9, 0x6f66, 0x7eef, 0x4c74, 0x5dfd],
    [0xb58b, 0xa402, 0x9699, 0x8710, 0xf3af, 0xe226, 0xd0bd, 0xc134],
    [0x39c3, 0x284a, 0x1ad1, 0x0b58, 0x7fe7, 0x6e6e, 0x5cf5, 0x4d7c],
    [0xc60c, 0xd785, 0xe51e, 0xf497, 0x8028, 0x91a1, 0xa33a, 0xb2b3],
    [0x4a44, 0x5bcd, 0x6956, 0x78df, 0x0c60, 0x1de9, 0x2f72, 0x3efb],
    [0xd68d, 0xc704, 0xf59f, 0xe416, 0x90a9, 0x8120, 0xb3bb, 0xa232],
    [0x5ac5, 0x4b4c, 0x79d7, 0x685e, 0x1ce1, 0x0d68, 0x3ff3, 0x2e7a],
    [0xe70e, 0xf687, 0xc41c, 0xd595, 0xa12a, 0xb0a3, 0x8238, 0x93b1],
    [0x6b46, 0x7acf, 0x4854, 0x59dd, 0x2d62, 0x3ceb, 0x0e70, 0x1ff9],
    [0xf78f, 0xe606, 0xd49d, 0xc514, 0xb1ab, 0xa022, 0x92b9, 0x8330],
    [0x7bc7, 0x6a4e, 0x58d5, 0x495c, 0x3de3, 0x2c6a, 0x1ef1, 0x0f78]
  ]

  function Entry(r: nat, c: nat): bv16
    requires r < 32 && c < 8
  {
    TABLE[r][c]
  }

  // crc_ccitt_table[i & 0xff]
  function Lookup(i: bv16): bv16 {
    Entry(((i & 0xff) >> 3) as nat, (i & 0x07) as nat)
  }

  // crc_ccitt_byte
  function CrcByte(crc: bv16, c: Byte): bv16 {
    (crc >> 8) ^ Lookup(crc ^ (c as bv16))
  }

  function Crc(crc: bv16, buffer: seq<Byte>): bv16
    decreases |buffer|
  {
    if buffer == [] then crc
    else CrcByte(Crc(crc, buffer[..|buffer| - 1]), buffer[|buffer| - 1])
  }

  // --- the definition: one bit at a time --------------------------------------------

  function Shift(x: bv16): bv16 {
    if x & 1 == 1 then (x >> 1) ^ 0x8408 else x >> 1
  }

  function Shift2(x: bv16): bv16 {
    Shift(Shift(x))
  }

  function Shift4(x: bv16): bv16 {
    Shift2(Shift2(x))
  }

  function Shift8(x: bv16): bv16 {
    Shift4(Shift4(x))
  }

  function BitwiseByte(crc: bv16, c: Byte): bv16 {
    Shift8(crc ^ (c as bv16))
  }

  function Bitwise(crc: bv16, buffer: seq<Byte>): bv16
    decreases |buffer|
  {
    if buffer == [] then crc
    else BitwiseByte(Bitwise(crc, buffer[..|buffer| - 1]), buffer[|buffer| - 1])
  }

  // --- the table ------------------------------------------------------------------------

  lemma FirstRow(c: nat)
    requires c < 8
    ensures Entry(0, c) == Shift8(c as bv16)
  {
    match c
    case 0 =>
    case 1 =>
    case 2 =>
    case 3 =>
    case 4 =>
    case 5 =>
    case 6 =>
    case 7 =>
  }

  lemma FirstColumn0(r: nat)
    requires 0 <= r < 4
    ensures Entry(r, 0) == Shift8((r as bv16) << 3)
  {
    match r
    case 0 =>
    case 1 =>
    case 2 =>
    case 3 =>
  }

  lemma FirstColumn1(r: nat)
    requires 4 <= r < 8
    ensures Entry(r, 0) == Shift8((r as bv16) << 3)
  {
    match r
    case 4 =>
    case 5 =>
    case 6 =>
    case 7 =>
  }

  lemma FirstColumn2(r: nat)
    requires 8 <= r < 16
    ensures Entry(r, 0) == Shift8((r as bv16) << 3)
  {
    match r
    case 8 =>
    case 9 =>
    case 10 =>
    case 11 =>
    case 12 =>
    case 13 =>
    case 14 =>
    case 15 =>
  }

  lemma FirstColumn3(r: nat)
    requires 16 <= r < 24
    ensures Entry(r, 0) == Shift8((r as bv16) << 3)
  {
    match r
    case 16 =>
    case 17 =>
    case 18 =>
    case 19 =>
    case 20 =>
    case 21 =>
    case 22 =>
    case 23 =>
  }

  lemma FirstColumn4(r: nat)
    requires 24 <= r < 32
    ensures Entry(r, 0) == Shift8((r as bv16) << 3)
  {
    match r
    case 24 =>
    case 25 =>
    case 26 =>
    case 27 =>
    case 28 =>
    case 29 =>
    case 30 =>
    case 31 =>
  }

  lemma RowsAreShifted0(r: nat, c: nat)
    requires 0 <= r < 8 && c < 8
    ensures Entry(r, c) == Entry(r, 0) ^ Entry(0, c)
  {
    match r
    case 0 =>
    case 1 =>
    case 2 =>
    case 3 =>
    case 4 =>
    case 5 =>
    case 6 =>
    case 7 =>
  }

  lemma RowsAreShifted1(r: nat, c: nat)
    requires 8 <= r < 16 && c < 8
    ensures Entry(r, c) == Entry(r, 0) ^ Entry(0, c)
  {
    match r
    case 8 =>
    case 9 =>
    case 10 =>
    case 11 =>
    case 12 =>
    case 13 =>
    case 14 =>
    case 15 =>
  }

  lemma RowsAreShifted2(r: nat, c: nat)
    requires 16 <= r < 24 && c < 8
    ensures Entry(r, c) == Entry(r, 0) ^ Entry(0, c)
  {
    match r
    case 16 =>
    case 17 =>
    case 18 =>
    case 19 =>
    case 20 =>
    case 21 =>
    case 22 =>
    case 23 =>
  }

  lemma RowsAreShifted3(r: nat, c: nat)
    requires 24 <= r < 32 && c < 8
    ensures Entry(r, c) == Entry(r, 0) ^ Entry(0, c)
  {
    match r
    case 24 =>
    case 25 =>
    case 26 =>
    case 27 =>
    case 28 =>
    case 29 =>
    case 30 =>
    case 31 =>
  }

  lemma RowsAreShifted(r: nat, c: nat)
    requires r < 32 && c < 8
    ensures Entry(r, c) == Plus(Entry(r, 0), Entry(0, c))
  {
    hide Entry;
    if r < 8 { RowsAreShifted0(r, c); } else if r < 16 { RowsAreShifted1(r, c); }
    else if r < 24 { RowsAreShifted2(r, c); } else { RowsAreShifted3(r, c); }
  }

  // --- shifting is linear, and loses nothing ----------------------------------------------

  lemma XorFacts(a: bv16, b: bv16, c: bv16)
    ensures (a ^ c) ^ (b ^ c) == a ^ b && (a ^ c) ^ b == (a ^ b) ^ c && a ^ (b ^ c) == (a ^ b) ^ c
    ensures a ^ b == b ^ a && a ^ a == 0 && a ^ 0 == a && (a ^ b == 0 <==> a == b)
  {}

  lemma XorHalves(a: bv16, b: bv16)
    ensures (a ^ b) >> 1 == (a >> 1) ^ (b >> 1)
    ensures (a ^ b) & 1 == 1 <==> a & 1 != b & 1
    ensures a & 1 == 0 || a & 1 == 1
    ensures b & 1 == 0 || b & 1 == 1
  {}

  function Plus(a: bv16, b: bv16): bv16 {
    a ^ b
  }

  lemma ShiftLinear(a: bv16, b: bv16)
    ensures Shift(Plus(a, b)) == Plus(Shift(a), Shift(b))
  {
    XorHalves(a, b);
    XorFacts(a >> 1, b >> 1, 0x8408);
  }

  lemma Shift2Linear(a: bv16, b: bv16)
    ensures Shift2(Plus(a, b)) == Plus(Shift2(a), Shift2(b))
  {
    hide Shift, Plus;
    ShiftLinear(a, b);
    ShiftLinear(Shift(a), Shift(b));
  }

  lemma Shift4Linear(a: bv16, b: bv16)
    ensures Shift4(Plus(a, b)) == Plus(Shift4(a), Shift4(b))
  {
    hide Shift2, Plus;
    Shift2Linear(a, b);
    Shift2Linear(Shift2(a), Shift2(b));
  }

  lemma Shift8Linear(a: bv16, b: bv16)
    ensures Shift8(Plus(a, b)) == Plus(Shift8(a), Shift8(b))
  {
    hide Shift4, Plus;
    Shift4Linear(a, b);
    Shift4Linear(Shift4(a), Shift4(b));
  }

  lemma HalfZero(x: bv16)
    ensures (x >> 1) ^ 0x8408 != 0
    ensures x >> 1 == 0 && x & 1 != 1 ==> x == 0
    ensures (0 as bv16) >> 1 == 0 && (0 as bv16) & 1 == 0
  {}

  lemma ShiftZero(x: bv16)
    ensures Shift(x) == 0 <==> x == 0
  {
    HalfZero(x);
  }

  lemma Shift4Zero(x: bv16)
    ensures Shift4(x) == 0 <==> x == 0
  {
    ShiftZero(x);
    ShiftZero(Shift(x));
    ShiftZero(Shift2(x));
    ShiftZero(Shift(Shift2(x)));
  }

  lemma Shift8Zero(x: bv16)
    ensures Shift8(x) == 0 <==> x == 0
  {
    hide Shift4;
    Shift4Zero(x);
    Shift4Zero(Shift4(x));
  }

  // Shifting by a byte what has no low byte.
  lemma Shift4High(x: bv16)
    requires x & 0xf == 0
    ensures Shift4(x) == x >> 4
  {
    LowBits(x);
  }

  lemma LowBits(x: bv16)
    requires x & 0xf == 0
    ensures x & 1 == 0 && (x >> 1) & 1 == 0 && (x >> 1 >> 1) & 1 == 0 && (x >> 1 >> 1 >> 1) & 1 == 0
    ensures x >> 1 >> 1 >> 1 >> 1 == x >> 4
  {}

  lemma ByteBits(x: bv16)
    ensures (x & 0xff00) & 0xf == 0 && ((x & 0xff00) >> 4) & 0xf == 0
    ensures (x & 0xff00) >> 4 >> 4 == x >> 8 && Plus(x & 0xff00, x & 0xff) == x
  {}

  // The high byte of what is shifted comes down unchanged.
  lemma Shift8Bytes(x: bv16)
    ensures Shift8(x) == Plus(x >> 8, Shift8(x & 0xff))
  {
    hide Shift4, Plus;
    ByteBits(x);
    Shift4High(x & 0xff00);
    Shift4High((x & 0xff00) >> 4);
    Shift8Linear(x & 0xff00, x & 0xff);
  }

  lemma IndexBits(i: bv16)
    ensures (i & 0xff) >> 3 < 32 && i & 0x07 < 8
    ensures Plus(((i & 0xff) >> 3) << 3, i & 0x07) == i & 0xff
  {}

  lemma EntryIsShift8(r: nat, c: nat)
    requires r < 32 && c < 8
    ensures Entry(r, c) == Plus(Shift8((r as bv16) << 3), Shift8(c as bv16))
  {
    hide Shift8, Entry, Plus;
    RowsAreShifted(r, c);
    if r < 4 { FirstColumn0(r); } else if r < 8 { FirstColumn1(r); } else if r < 16 { FirstColumn2(r); }
    else if r < 24 { FirstColumn3(r); } else { FirstColumn4(r); }
    FirstRow(c);
  }

  lemma EntryOf(r: bv16, c: bv16)
    requires r < 32 && c < 8
    ensures Entry(r as nat, c as nat) == Shift8(Plus(r << 3, c))
  {
    hide Shift8, Plus, Entry;
    EntryIsShift8(r as nat, c as nat);
    Shift8Linear(r << 3, c);
  }

  lemma LookupIsShift8(i: bv16)
    ensures Lookup(i) == Shift8(i & 0xff)
  {
    hide Shift8, Plus, Entry;
    IndexBits(i);
    EntryOf((i & 0xff) >> 3, i & 0x07);
  }

  lemma ByteFacts(crc: bv16, c: Byte)
    ensures (crc ^ (c as bv16)) >> 8 == crc >> 8
  {}

  // One byte by table is eight bits one at a time.
  lemma ByteIsBitwise(crc: bv16, c: Byte)
    ensures CrcByte(crc, c) == BitwiseByte(crc, c)
  {
    LookupIsShift8(crc ^ (c as bv16));
    ByteFacts(crc, c);
    Shift8Bytes(crc ^ (c as bv16));
  }

  lemma {:induction false} CrcIsBitwise(crc: bv16, buffer: seq<Byte>)
    ensures Crc(crc, buffer) == Bitwise(crc, buffer)
    decreases |buffer|
  {
    if buffer != [] {
      var front := buffer[..|buffer| - 1];
      CrcIsBitwise(crc, front);
      ByteIsBitwise(Crc(crc, front), buffer[|buffer| - 1]);
    }
  }

  // crc_ccitt
  method CrcCcittOf(crc: bv16, buffer: seq<Byte>) returns (tmp: bv16)
    ensures tmp == Bitwise(crc, buffer) == Crc(crc, buffer)
  {
    hide CrcByte;
    tmp := crc;
    var i := 0;
    while i < |buffer|
      invariant i <= |buffer| && tmp == Crc(crc, buffer[..i])
    {
      assert buffer[..i + 1][..i] == buffer[..i];
      tmp := CrcByte(tmp, buffer[i]);
      i := i + 1;
    }
    assert buffer[..i] == buffer;
    CrcIsBitwise(crc, buffer);
  }
}
