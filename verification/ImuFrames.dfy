// The byte stream of the serial IMU (drivers/drv_imu_uart.c): its frames, and the
// parser as a function of the bytes seen.

module ImuFrames {
  type Byte = b: int | 0 <= b < 256

  const HEAD_0: Byte := 0x7E       // IMU_UART_FRAME_HEAD_0
  const HEAD_1: Byte := 0x23       // IMU_UART_FRAME_HEAD_1
  const MAX_LEN: nat := 128        // IMU_UART_MAX_FRAME_LEN

  // --- frames --------------------------------------------------------------------------

  function Sum(s: seq<Byte>): nat {
    if s == [] then 0 else Sum(s[..|s| - 1]) + s[|s| - 1]
  }

  // The sum of all bytes but the last, & 0xFF.
  function Checksum(frame: seq<Byte>): Byte
    requires frame != []
  {
    Sum(frame[..|frame| - 1]) % 256
  }

  ghost predicate Framed(f: seq<Byte>) {
    5 <= |f| <= MAX_LEN && f[0] == HEAD_0 && f[1] == HEAD_1 && f[2] == |f|
  }

  ghost predicate Intact(f: seq<Byte>) {
    Framed(f) && Checksum(f) == f[|f| - 1]
  }

  function Encode(func: Byte, payload: seq<Byte>): seq<Byte>
    requires |payload| + 5 <= MAX_LEN
  {
    var body := [HEAD_0, HEAD_1, |payload| + 5, func] + payload;
    body + [Sum(body) % 256]
  }

  lemma EncodeIntact(func: Byte, payload: seq<Byte>)
    requires |payload| + 5 <= MAX_LEN
    ensures var f := Encode(func, payload);
      && Intact(f) && f[3] == func && f[4..|f| - 1] == payload
  {
    var body := [HEAD_0, HEAD_1, |payload| + 5, func] + payload;
    var f := Encode(func, payload);
    assert f[..|f| - 1] == body;
  }

  // The checksum adds up every byte once.
  lemma {:induction false} SumAll(a: seq<Byte>, b: seq<Byte>)
    ensures Sum(a + b) == Sum(a) + Sum(b)
    ensures |b| == 1 ==> Sum(b) == b[0]
    decreases |b|
  {
    if b == [] {
      assert a + b == a;
    } else {
      var n := |b| - 1;
      assert (a + b)[..|a + b| - 1] == a + b[..n] && (a + b)[|a + b| - 1] == b[n];
      SumAll(a, b[..n]);
    }
  }

  lemma SumChanged(s: seq<Byte>, i: nat, b: Byte)
    requires i < |s|
    ensures Sum(s[i := b]) == Sum(s) - s[i] + b
  {
    assert s == s[..i] + ([s[i]] + s[i + 1..]) && s[i := b] == s[..i] + ([b] + s[i + 1..]);
    SumAll(s[..i], [s[i]] + s[i + 1..]);
    SumAll([s[i]], s[i + 1..]);
    SumAll([], [s[i]]);
    SumAll(s[..i], [b] + s[i + 1..]);
    SumAll([b], s[i + 1..]);
    SumAll([], [b]);
  }

  // A frame with any one byte changed, its checksum included, fails the check.
  lemma ByteErrorDetected(f: seq<Byte>, i: nat, b: Byte)
    requires |f| > 0 && Checksum(f) == f[|f| - 1] && i < |f| && b != f[i]
    ensures Checksum(f[i := b]) != f[i := b][|f| - 1]
  {
    var g, n := f[i := b], |f| - 1;
    if i == n {
      assert g[..n] == f[..n];
    } else {
      assert g[..n] == f[..n][i := b];
      SumChanged(f[..n], i, b);
    }
  }

  // --- the parser ------------------------------------------------------------------------

  // parse_state, the bytes in frame_buf, frame_len, the frames handed to
  // imu_uart_parse_frame, and how often a length was refused.
  datatype Parser = Parser(state: nat, got: seq<Byte>, len: nat, frames: seq<seq<Byte>>, refused: nat)

  function Feed(p: Parser, ch: Byte): Parser {
    match p.state
    case 0 => if ch == HEAD_0 then p.(state := 1, got := [ch]) else p
    case 1 =>
      if ch == HEAD_1 then p.(state := 2, got := p.got + [ch])
      else if ch == HEAD_0 then p.(got := [ch])
      else p.(state := 0, got := [])
    case 2 =>
      if ch < 5 || ch > MAX_LEN then Parser(0, [], 0, p.frames, p.refused + 1)
      else p.(state := 3, got := p.got + [ch], len := ch)
    case 3 =>
      var got := p.got + [ch];
      if |got| >= p.len then Parser(0, [], 0, p.frames + [got], p.refused) else p.(got := got)
    case _ => p.(state := 0, got := [], len := 0)
  }

  function FeedAll(p: Parser, bytes: seq<Byte>): Parser
    decreases |bytes|
  {
    if bytes == [] then p else FeedAll(Feed(p, bytes[0]), bytes[1..])
  }

  ghost predicate Started(p: Parser) {
    && 5 <= p.len <= MAX_LEN && 3 <= |p.got| < p.len
    && p.got[0] == HEAD_0 && p.got[1] == HEAD_1 && p.got[2] == p.len
  }

  // What has been stored is the beginning of a frame, and leaves room for the rest.
  ghost predicate Good(p: Parser) {
    && (p.state == 0 ==> p.got == [])
    && (p.state == 1 ==> p.got == [HEAD_0])
    && (p.state == 2 ==> p.got == [HEAD_0, HEAD_1])
    && (p.state == 3 ==> Started(p))
    && p.state <= 3
    && forall i :: 0 <= i < |p.frames| ==> Framed(p.frames[i])
  }

  lemma FeedGood(p: Parser, ch: Byte)
    requires Good(p)
    ensures Good(Feed(p, ch))
  {
    var r := Feed(p, ch);
    forall i | 0 <= i < |r.frames| ensures Framed(r.frames[i]) {
      if i < |p.frames| { assert r.frames[i] == p.frames[i]; }
    }
  }

  // From any good state, whatever bytes come: no index leaves the buffer, and
  // only framed sequences are handed on.
  lemma {:induction false} FeedAllGood(p: Parser, bytes: seq<Byte>)
    requires Good(p)
    ensures Good(FeedAll(p, bytes))
    decreases |bytes|
  {
    if bytes != [] {
      FeedGood(p, bytes[0]);
      FeedAllGood(Feed(p, bytes[0]), bytes[1..]);
    }
  }

  lemma {:induction false} FeedAppend(p: Parser, a: seq<Byte>, b: seq<Byte>)
    ensures FeedAll(p, a + b) == FeedAll(FeedAll(p, a), b)
    decreases |a|
  {
    if a == [] {
      assert a + b == b;
    } else {
      assert (a + b)[0] == a[0] && (a + b)[1..] == a[1..] + b;
      FeedAppend(Feed(p, a[0]), a[1..], b);
    }
  }

  // --- what comes out of a stream --------------------------------------------------------

  // Between frames: anything in which no header stands complete. Stray and
  // repeated first header bytes are welcome, at the end too.
  ghost predicate Gap(g: seq<Byte>) {
    forall i :: 0 <= i < |g| - 1 ==> g[i] != HEAD_0 || g[i + 1] != HEAD_1
  }

  ghost predicate AtRest(p: Parser) {
    (p.state == 0 && p.got == []) || (p.state == 1 && p.got == [HEAD_0])
  }

  lemma {:induction false} GapIgnored(p: Parser, g: seq<Byte>)
    requires AtRest(p) && Gap(g) && (p.state == 1 && g != [] ==> g[0] != HEAD_1)
    ensures var r := FeedAll(p, g); AtRest(r) && r.frames == p.frames && r.refused == p.refused && r.len == p.len
    decreases |g|
  {
    if g != [] {
      forall i | 0 <= i < |g[1..]| - 1 ensures g[1..][i] != HEAD_0 || g[1..][i + 1] != HEAD_1 {
        assert g[i + 1] != HEAD_0 || g[i + 2] != HEAD_1;
      }
      assert g[0] == HEAD_0 && |g| > 1 ==> g[1] != HEAD_1;
      GapIgnored(Feed(p, g[0]), g[1..]);
    }
  }

  // The part of a frame behind its length byte.
  lemma {:induction false} BodyCollected(p: Parser, rest: seq<Byte>)
    requires p.state == 3 && rest != [] && |p.got| + |rest| == p.len
    ensures FeedAll(p, rest) == Parser(0, [], 0, p.frames + [p.got + rest], p.refused)
    decreases |rest|
  {
    if |rest| == 1 {
      assert rest == [rest[0]] && rest[1..] == [];
    } else {
      var p1 := Feed(p, rest[0]);
      BodyCollected(p1, rest[1..]);
      assert p1.got + rest[1..] == p.got + rest;
    }
  }

  lemma FrameDispatched(p: Parser, f: seq<Byte>)
    requires AtRest(p) && Framed(f)
    ensures FeedAll(p, f) == Parser(0, [], 0, p.frames + [f], p.refused)
  {
    var p1 := Feed(p, f[0]);
    var p2 := Feed(p1, f[1]);
    var p3 := Feed(p2, f[2]);
    assert p3.got == [f[0], f[1], f[2]] && p3.len == |f|;
    assert f[1..][1..][1..] == f[3..] && f[1..][0] == f[1] && f[1..][1..][0] == f[2];
    assert FeedAll(p, f) == FeedAll(p1, f[1..]) == FeedAll(p2, f[1..][1..]) == FeedAll(p3, f[3..]);
    BodyCollected(p3, f[3..]);
    assert [f[0], f[1], f[2]] + f[3..] == f;
  }

  // A header with a length that no frame has is refused, and the parser starts anew.
  lemma LengthRefused(p: Parser, ch: Byte)
    requires AtRest(p)
    ensures FeedAll(p, [HEAD_0, HEAD_1, ch]) ==
      if 5 <= ch <= MAX_LEN then Parser(3, [HEAD_0, HEAD_1, ch], ch, p.frames, p.refused)
      else Parser(0, [], 0, p.frames, p.refused + 1)
  {
    var f := [HEAD_0, HEAD_1, ch];
    var p1 := Feed(p, HEAD_0);
    var p2 := Feed(p1, HEAD_1);
    assert f[1..] == [HEAD_1, ch] && f[1..][1..] == [ch] && [ch][1..] == [];
    assert FeedAll(p, f) == FeedAll(p1, f[1..]) == FeedAll(p2, [ch]) == Feed(p2, ch);
  }

  // A gap before each frame.
  function Stream(gaps: seq<seq<Byte>>, frames: seq<seq<Byte>>): seq<Byte>
    requires |gaps| == |frames|
  {
    if gaps == [] then [] else gaps[0] + (frames[0] + Stream(gaps[1..], frames[1..]))
  }

  // The parser hands on exactly the frames that were sent, in order.
  lemma {:induction false} StreamParsed(p: Parser, gaps: seq<seq<Byte>>, frames: seq<seq<Byte>>)
    requires p.state == 0 && p.got == [] && p.len == 0 && |gaps| == |frames|
    requires forall i :: 0 <= i < |gaps| ==> Gap(gaps[i])
    requires forall i :: 0 <= i < |frames| ==> Framed(frames[i])
    ensures FeedAll(p, Stream(gaps, frames)) == p.(frames := p.frames + frames)
    decreases |gaps|
  {
    if gaps == [] {
      assert p.frames + frames == p.frames;
    } else {
      var rest := Stream(gaps[1..], frames[1..]);
      FeedAppend(p, gaps[0], frames[0] + rest);
      GapIgnored(p, gaps[0]);
      var p1 := FeedAll(p, gaps[0]);
      FeedAppend(p1, frames[0], rest);
      FrameDispatched(p1, frames[0]);
      var p2 := FeedAll(p1, frames[0]);
      StreamParsed(p2, gaps[1..], frames[1..]);
      assert (p.frames + [frames[0]]) + frames[1..] == p.frames + frames;
    }
  }

  function Start(): Parser {
    Parser(0, [], 0, [], 0)
  }

  // Frame f carries function and payload.
  ghost predicate Carries(f: seq<Byte>, func: Byte, payload: seq<Byte>) {
    Intact(f) && f[3] == func && f[4..|f| - 1] == payload
  }

  // It inverts the encoder.
  lemma EncodedParsed(gaps: seq<seq<Byte>>, funcs: seq<Byte>, payloads: seq<seq<Byte>>, frames: seq<seq<Byte>>)
    requires |gaps| == |funcs| == |payloads| == |frames|
    requires forall i :: 0 <= i < |gaps| ==> Gap(gaps[i])
    requires forall i :: 0 <= i < |payloads| ==> |payloads[i]| + 5 <= MAX_LEN
    requires forall i :: 0 <= i < |frames| ==> frames[i] == Encode(funcs[i], payloads[i])
    ensures var out := FeedAll(Start(), Stream(gaps, frames)).frames;
      |out| == |frames| && forall i :: 0 <= i < |out| ==> Carries(out[i], funcs[i], payloads[i])
  {
    hide FeedAll, Stream, Gap, Encode, Checksum;
    forall i | 0 <= i < |frames| ensures Carries(frames[i], funcs[i], payloads[i]) && Framed(frames[i]) {
      EncodeIntact(funcs[i], payloads[i]);
    }
    StreamParsed(Start(), gaps, frames);
    assert Start().frames + frames == frames;
  }
}
