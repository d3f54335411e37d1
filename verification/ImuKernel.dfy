// drivers/drv_imu_uart.c: the parser in place, on its frame buffer and counters.

module ImuKernel {
  import opened ImuFrames

  const FUNC_RAW_ACCEL: Byte := 0x04
  const FUNC_EULER: Byte := 0x26

  datatype Report = FrameError | ChecksumError | Accel(x: int, y: int, z: int) | Euler(raw: seq<Byte>) | Ignored

  // imu_uart_le_i16
  function LeI16(lo: Byte, hi: Byte): (v: int)
    ensures -0x8000 <= v < 0x8000
    ensures (v - (lo + 0x100 * hi)) % 0x10000 == 0
  {
    var u := lo + 0x100 * hi;
    if u >= 0x8000 then u - 0x10000 else u
  }

  // What imu_uart_parse_frame makes of a frame.
  function Meaning(frame: seq<Byte>): Report {
    if |frame| < 5 then FrameError
    else if Checksum(frame) != frame[|frame| - 1] then ChecksumError
    else
      var data := frame[4..|frame| - 1];
      if frame[3] == FUNC_RAW_ACCEL then
        if |data| < 6 then FrameError
        else Accel(LeI16(data[0], data[1]), LeI16(data[2], data[3]), LeI16(data[4], data[5]))
      else if frame[3] == FUNC_EULER then
        if |data| < 12 then FrameError else Euler(data[..12])
      else Ignored
  }

  // An encoded frame means what was put into it.
  lemma EncodedMeaning(func: Byte, payload: seq<Byte>)
    requires |payload| + 5 <= MAX_LEN
    ensures var m := Meaning(Encode(func, payload));
      && m != ChecksumError
      && (func == FUNC_RAW_ACCEL && |payload| >= 6 ==>
        m == Accel(LeI16(payload[0], payload[1]), LeI16(payload[2], payload[3]), LeI16(payload[4], payload[5])))
      && (func == FUNC_EULER && |payload| >= 12 ==> m == Euler(payload[..12]))
      && (func == FUNC_RAW_ACCEL && |payload| < 6 ==> m == FrameError)
      && (func == FUNC_EULER && |payload| < 12 ==> m == FrameError)
      && (func != FUNC_RAW_ACCEL && func != FUNC_EULER ==> m == Ignored)
  {
    EncodeIntact(func, payload);
  }

  // An intact frame with any one byte changed is reported as such.
  lemma CorruptedMeaning(f: seq<Byte>, i: nat, b: Byte)
    requires Intact(f) && i < |f| && b != f[i]
    ensures Meaning(f[i := b]) == ChecksumError
  {
    hide Checksum;
    ByteErrorDetected(f, i, b);
  }

  class Imu {
    const frameBuf: array<Byte>
    var parseState: nat
    var frameLen: nat
    var frameIndex: nat
    var accUpdates: nat          // latest.acc_update_count
    var eulerUpdates: nat        // latest.euler_update_count
    var checksumErrors: nat      // latest.checksum_error_count
    var frameErrors: nat         // latest.frame_error_count
    ghost var frames: seq<seq<Byte>>
    ghost var refused: nat

    // The write index stays inside the declared length, and that inside the buffer.
    ghost predicate Valid()
      reads this, frameBuf
    {
      && frameBuf.Length == MAX_LEN
      && frameIndex <= MAX_LEN && Good(State())
    }

    ghost function State(): Parser
      requires frameBuf.Length == MAX_LEN && frameIndex <= MAX_LEN
      reads this, frameBuf
    {
      Parser(parseState, frameBuf[..frameIndex], frameLen, frames, refused)
    }

    constructor ()
      ensures Valid() && State() == Start() && fresh(frameBuf)
      ensures accUpdates == eulerUpdates == checksumErrors == frameErrors == 0
    {
      frameBuf := new Byte[MAX_LEN];
      parseState, frameLen, frameIndex := 0, 0, 0;
      accUpdates, eulerUpdates, checksumErrors, frameErrors := 0, 0, 0, 0;
      frames, refused := [], 0;
    }

    // imu_uart_checksum; `sum` is 16 bits wide and does not overflow.
    method ChecksumOf(len: nat) returns (sum: Byte)
      requires 0 < len <= frameBuf.Length <= MAX_LEN
      ensures sum == Checksum(frameBuf[..len])
    {
      var total: nat := 0;
      var i := 0;
      while i < len - 1
        invariant i <= len - 1 && total == Sum(frameBuf[..i]) <= 255 * i
      {
        assert frameBuf[..i + 1][..i] == frameBuf[..i];
        total := total + frameBuf[i];
        i := i + 1;
      }
      assert total < 0x10000;
      assert frameBuf[..len][..len - 1] == frameBuf[..i];
      sum := total % 256;
    }

    // imu_uart_parse_frame on the buffer; the callback gets what is reported.
    method ParseFrame(len: nat) returns (r: Report)
      requires frameBuf.Length == MAX_LEN && 0 < len <= MAX_LEN
      modifies `accUpdates, `eulerUpdates, `checksumErrors, `frameErrors
      ensures r == Meaning(frameBuf[..len])
      ensures accUpdates == old(accUpdates) + if r.Accel? then 1 else 0
      ensures eulerUpdates == old(eulerUpdates) + if r.Euler? then 1 else 0
      ensures checksumErrors == old(checksumErrors) + if r.ChecksumError? then 1 else 0
      ensures frameErrors == old(frameErrors) + if r.FrameError? then 1 else 0
    {
      hide Checksum, LeI16;
      if len < 5 {
        frameErrors := frameErrors + 1;
        return FrameError;
      }
      var sum := ChecksumOf(len);
      if sum != frameBuf[len - 1] {
        checksumErrors := checksumErrors + 1;
        return ChecksumError;
      }
      var func := frameBuf[3];
      var dataLen := len - 5;
      ghost var data := frameBuf[..len][4..len - 1];
      assert |data| == dataLen && frameBuf[..len][3] == func;
      if func == FUNC_RAW_ACCEL {
        if dataLen < 6 {
          frameErrors := frameErrors + 1;
          return FrameError;
        }
        assert forall i :: 0 <= i < 6 ==> data[i] == frameBuf[..len][4 + i] == frameBuf[4 + i];
        r := Accel(LeI16(frameBuf[4], frameBuf[5]), LeI16(frameBuf[6], frameBuf[7]), LeI16(frameBuf[8], frameBuf[9]));
        accUpdates := accUpdates + 1;
      } else if func == FUNC_EULER {
        if dataLen < 12 {
          frameErrors := frameErrors + 1;
          return FrameError;
        }
        assert data[..12] == frameBuf[..len][4..16] == frameBuf[4..16];
        r := Euler(frameBuf[4..16]);
        eulerUpdates := eulerUpdates + 1;
      } else {
        r := Ignored;
      }
    }

    // imu_uart_feed_byte, inside a frame
    method CollectByte(ch: Byte) returns (r: Report)
      requires Valid() && parseState == 3
      modifies this, frameBuf
      ensures Valid() && State() == Feed(old(State()), ch) && refused == old(refused)
      ensures if |frames| > |old(frames)| then r == Meaning(frames[|frames| - 1]) else r == Ignored
      ensures frameErrors == old(frameErrors) + if r.FrameError? then 1 else 0
      ensures checksumErrors == old(checksumErrors) + if r.ChecksumError? then 1 else 0
      ensures accUpdates == old(accUpdates) + if r.Accel? then 1 else 0
      ensures eulerUpdates == old(eulerUpdates) + if r.Euler? then 1 else 0
    {
      ghost var p := State();
      FeedGood(p, ch);
      r := Ignored;
      frameBuf[frameIndex] := ch;
      frameIndex := frameIndex + 1;
      assert frameBuf[..frameIndex] == p.got + [ch];
      if frameIndex >= frameLen {
        r := ParseFrame(frameLen);
        frames := frames + [frameBuf[..frameLen]];
        parseState := 0;
        frameIndex := 0;
        frameLen := 0;
        assert frameBuf[..frameIndex] == [];
      }
    }

    // imu_uart_feed_byte, at the length byte
    method TakeLength(ch: Byte) returns (r: Report)
      requires Valid() && parseState == 2
      modifies this, frameBuf
      ensures Valid() && State() == Feed(old(State()), ch) && frames == old(frames)
      ensures r == if refused > old(refused) then FrameError else Ignored
      ensures frameErrors == old(frameErrors) + if r.FrameError? then 1 else 0
      ensures checksumErrors == old(checksumErrors)
      ensures accUpdates == old(accUpdates) && eulerUpdates == old(eulerUpdates)
    {
      ghost var p := State();
      FeedGood(p, ch);
      frameLen := ch;
      if frameLen < 5 || frameLen > MAX_LEN {
        frameErrors := frameErrors + 1;
        refused := refused + 1;
        parseState := 0;
        frameIndex := 0;
        frameLen := 0;
        assert frameBuf[..frameIndex] == [];
        return FrameError;
      }
      frameBuf[2] := ch;
      assert frameBuf[..3] == p.got + [ch];
      frameIndex := 3;
      parseState := 3;
      r := Ignored;
    }

    // imu_uart_feed_byte, looking for the header
    method SeekHeader(ch: Byte)
      requires Valid() && parseState < 2
      modifies `parseState, `frameIndex, frameBuf
      ensures Valid() && State() == Feed(old(State()), ch)
    {
      ghost var p := State();
      FeedGood(p, ch);
      if parseState == 0 {
        if ch == HEAD_0 {
          frameBuf[0] := ch;
          frameIndex := 1;
          parseState := 1;
        }
      } else {
        if ch == HEAD_1 {
          frameBuf[1] := ch;
          assert frameBuf[..2] == p.got + [ch];
          frameIndex := 2;
          parseState := 2;
        } else if ch == HEAD_0 {
          frameBuf[0] := ch;
          frameIndex := 1;
          parseState := 1;
        } else {
          parseState := 0;
          frameIndex := 0;
        }
      }
      assert frameIndex <= 1 ==> frameBuf[..frameIndex] == if frameIndex == 0 then [] else [frameBuf[0]];
    }

    // imu_uart_feed_byte
    method FeedByte(ch: Byte) returns (r: Report)
      requires Valid()
      modifies this, frameBuf
      ensures Valid() && State() == Feed(old(State()), ch)
      ensures if |frames| > |old(frames)| then r == Meaning(frames[|frames| - 1])
        else r == if refused > old(refused) then FrameError else Ignored
      ensures frameErrors == old(frameErrors) + if r.FrameError? then 1 else 0
      ensures checksumErrors == old(checksumErrors) + if r.ChecksumError? then 1 else 0
      ensures accUpdates == old(accUpdates) + if r.Accel? then 1 else 0
      ensures eulerUpdates == old(eulerUpdates) + if r.Euler? then 1 else 0
    {
      if parseState == 3 {
        r := CollectByte(ch);
      } else if parseState == 2 {
        r := TakeLength(ch);
      } else {
        SeekHeader(ch);
        r := Ignored;
      }
    }
  }
}
