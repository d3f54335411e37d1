// The frames of applications/go_motor_min.c: the command that is sent and the
// feedback that is accepted, both closed by a little-endian CRC.

module GoMotor {
  import opened CrcCcitt
  import opened CrcDetection
  import opened CrcBursts

  const TX_LEN: nat := 17
  const RX_LEN: nat := 16

  // put_u16_le_min
  method PutU16Le(p: array<Byte>, at: nat, v: bv16)
    requires at + 1 < p.Length
    modifies p
    ensures LittleEndian(p[at], p[at + 1]) == v
    ensures forall i :: 0 <= i < p.Length && i != at && i != at + 1 ==> p[i] == old(p[i])
  {
    WordParts(v);
    p[at] := (v & 0xff) as Byte;
    p[at + 1] := ((v >> 8) & 0xff) as Byte;
  }

  lemma WordParts(v: bv16)
    ensures v & 0xff < 256 && (v >> 8) & 0xff < 256
    ensures LittleEndian((v & 0xff) as Byte, ((v >> 8) & 0xff) as Byte) == v
  {}

  // go_min_build_zero_cmd
  method BuildZeroCmd(id: Byte, mode: Byte, tx: array<Byte>)
    requires tx.Length == TX_LEN
    modifies tx
    ensures tx[0] == 0xFE && tx[1] == 0xEE && tx[2] == (id & 0x0F) | ((mode & 0x07) << 4)
    ensures forall i :: 3 <= i < 15 ==> tx[i] == 0
    ensures LittleEndian(tx[15], tx[16]) == Bitwise(0, tx[..15])
    ensures Crc(0, tx[..]) == 0
  {
    hide CrcByte, LittleEndian;
    var i := 0;
    while i < tx.Length
      invariant i <= tx.Length && forall k :: 0 <= k < i ==> tx[k] == 0
    {
      tx[i] := 0;
      i := i + 1;
    }
    tx[0] := 0xFE;
    tx[1] := 0xEE;
    tx[2] := (id & 0x0F) | ((mode & 0x07) << 4);
    ghost var body := tx[..15];
    var crc := CrcCcittOf(0, tx[..15]);
    PutU16Le(tx, 15, crc);
    assert tx[..15] == body;
    assert tx[..] == tx[..15] + [tx[15], tx[16]];
    Residue(body, tx[15], tx[16]);
  }

  // go_min_feedback_valid
  predicate FeedbackValid(rx: seq<Byte>)
    requires |rx| == RX_LEN
  {
    && ((rx[0] == 0xFD && rx[1] == 0xEE) || (rx[0] == 0xFE && rx[1] == 0xEE))
    && LittleEndian(rx[14], rx[15]) == Crc(0, rx[..14])
  }

  // In terms of the definition of the CRC, over the whole frame.
  lemma FeedbackMeansResidue(rx: seq<Byte>)
    requires |rx| == RX_LEN
    ensures FeedbackValid(rx) <==> rx[0] in {0xFD, 0xFE} && rx[1] == 0xEE && Bitwise(0, rx) == 0
  {
    hide CrcByte, LittleEndian;
    assert rx == rx[..14] + [rx[14], rx[15]];
    Residue(rx[..14], rx[14], rx[15]);
    CrcIsBitwise(0, rx);
  }

  // A valid frame with an error in two neighbouring bytes, header and CRC
  // included, is not valid.
  lemma CorruptedFeedbackRejected(rx: seq<Byte>, bad: seq<Byte>, j: nat)
    requires |rx| == RX_LEN && FeedbackValid(rx) && DifferAt(rx, bad, j) && bad != rx
    ensures !FeedbackValid(bad)
  {
    hide CrcByte, Bitwise;
    FeedbackMeansResidue(rx);
    FeedbackMeansResidue(bad);
    CrcIsBitwise(0, rx);
    CrcIsBitwise(0, bad);
    BurstDetected(rx, bad, j);
  }

  // ... nor is one with an error in 16 consecutive bits, at any bit.
  lemma CorruptedBitsRejected(rx: seq<Byte>, bad: seq<Byte>, i: nat)
    requires |rx| == RX_LEN && |bad| == RX_LEN && FeedbackValid(rx) && bad != rx
    requires AgreeOutside(MessageBits(rx), MessageBits(bad), i, 16)
    ensures !FeedbackValid(bad)
  {
    hide CrcByte, Bitwise, MessageBits;
    FeedbackMeansResidue(rx);
    FeedbackMeansResidue(bad);
    CrcIsBitwise(0, rx);
    CrcIsBitwise(0, bad);
    BurstOf16Detected(rx, bad, i, 16);
  }
}
