/**
  The frame codec. `EncodeFrame` and `Pull` say what one call does as functions of values;
  `Drain` is repeated decoding; `Follow` is any interleaving of feeding and decoding. The
  encoder and decoder objects are proved against the first two.

  zlib is a pair of functions with the one law the codec relies on; the compression in force
  when the i-th packet passes is `modes(i)`.
 */
module Codecs {
  import opened Arithmetic
  import opened Powers
  import opened Bytes
  import opened Varints
  import opened Crypts
  import opened Wrappers

  const MAX_FRAME_LEN: nat := 2 * 1024 * 1024

  type Packet = seq<byte>

  /** Compression threshold in force, if any. */
  type Mode = Option<nat>

  datatype Zlib = Zlib(deflate: seq<byte> -> Option<seq<byte>>, inflate: seq<byte> -> Option<seq<byte>>) {
    /** A stream that was produced is never empty (it starts with a header) and inflates back. */
    ghost predicate Lawful() {
      forall x: seq<byte> {:trigger deflate(x)} :: deflate(x).Some? ==>
        |deflate(x).value| > 0 && inflate(deflate(x).value) == Some(x)
    }
  }

  // ------------------------------------------------------------------ one frame

  function EncodeFrame(z: Zlib, mode: Mode, packet: Packet): Result<seq<byte>, ProtocolError> {
    match mode
    case None =>
      if |packet| > MAX_FRAME_LEN then Failure(FrameTooLarge(|packet|, MAX_FRAME_LEN))
      else Success(VarintOf(|packet|) + packet)
    case Some(threshold) =>
      if |packet| < threshold then
        Success(VarintOf(1 + |packet|) + VarintOf(0) + packet)
      else
        match z.deflate(packet)
        case None => Failure(Compression)
        case Some(body) =>
          var frameLen := |VarintOf(|packet|)| + |body|;
          if frameLen > MAX_FRAME_LEN then Failure(FrameTooLarge(frameLen, MAX_FRAME_LEN))
          else Success(VarintOf(frameLen) + VarintOf(|packet|) + body)
  }

  /** Inflation that must produce exactly the declared number of bytes. */
  function InflateExact(z: Zlib, input: seq<byte>, expected: nat): Result<Packet, ProtocolError> {
    match z.inflate(input)
    case None => Failure(Compression)
    case Some(out) => if |out| != expected then Failure(Compression) else Success(out)
  }

  function DecodeBody(z: Zlib, mode: Mode, frame: seq<byte>): Result<Packet, ProtocolError> {
    match mode
    case None => Success(frame)
    case Some(threshold) =>
      var (dataLen, used) :- ReadVarint(frame);
      if dataLen == 0 then Success(frame[used..])
      else if dataLen < 0 then Failure(NegativeLength(dataLen))
      else if dataLen < threshold then Failure(BadlyCompressed(dataLen, threshold))
      else if dataLen > MAX_FRAME_LEN then Failure(DecompressedTooLarge(dataLen, MAX_FRAME_LEN))
      else InflateExact(z, frame[used..], dataLen)
  }

  /** Outcome of one `decode`, with the buffer it leaves. */
  datatype Pulled =
    | More
    | Got(packet: Packet, rest: seq<byte>)
    | Fail(error: ProtocolError, rest: seq<byte>)

  function Pull(z: Zlib, mode: Mode, buf: seq<byte>): (p: Pulled)
    ensures p.Got? ==> |p.rest| < |buf|
  {
    match ReadVarint(buf)
    case Failure(e) => if e.UnexpectedEof? then More else Fail(e, buf)
    case Success((frameLen, headerLen)) =>
      if frameLen < 0 then Fail(NegativeLength(frameLen), buf)
      else if frameLen > MAX_FRAME_LEN then Fail(FrameTooLarge(frameLen, MAX_FRAME_LEN), buf)
      else if |buf| < headerLen + frameLen then More
      else
        var rest := buf[headerLen + frameLen..];
        match DecodeBody(z, mode, buf[headerLen..headerLen + frameLen])
        case Success(packet) => Got(packet, rest)
        case Failure(e) => Fail(e, rest)
  }

  /** The packet sizes the decoder gives back under a mode. */
  predicate Recoverable(mode: Mode, len: nat) {
    match mode
    case None => true
    case Some(threshold) =>
      if len < threshold then 1 + len <= MAX_FRAME_LEN else 0 < len <= MAX_FRAME_LEN
  }

  // ------------------------------------------------------------------ what is accepted and what is refused

  /** Under compression a frame is accepted as `p` in two cases: its length field reads 0 and `p` is the
      rest, or it reads the size of `p`, which is in bounds, and the rest inflates to `p`. */
  lemma BodyAccepted(z: Zlib, threshold: nat, frame: seq<byte>, p: Packet)
    ensures DecodeBody(z, Some(threshold), frame) == Success(p) <==>
      && ReadVarint(frame).Success?
      && var (n, used) := ReadVarint(frame).value;
         || (n == 0 && p == frame[used..])
         || (0 < n == |p| && threshold <= n <= 2_097_152 && z.inflate(frame[used..]) == Some(p))
  {
    hide ReadVarint;
  }

  /** And in every other case it is refused for what is wrong with it. */
  lemma BodyRefused(z: Zlib, threshold: nat, frame: seq<byte>)
    ensures match ReadVarint(frame)
      case Failure(e) => DecodeBody(z, Some(threshold), frame) == Failure(e)
      case Success((n, used)) =>
        var r, inflated := DecodeBody(z, Some(threshold), frame), z.inflate(frame[used..]);
        && (n < 0 ==> r == Failure(NegativeLength(n)))
        && (0 < n < threshold ==> r == Failure(BadlyCompressed(n, threshold)))
        && (n > 0 && n >= threshold && n > 2_097_152 ==> r == Failure(DecompressedTooLarge(n, 2_097_152)))
        && (0 < n <= 2_097_152 && n >= threshold && (inflated.None? || |inflated.value| != n) ==>
              r == Failure(Compression))
  {
    hide ReadVarint;
  }

  /** A buffer is waited on while its frame is incomplete, refused when its length is no length, and else
      gives up its frame, which without compression is the packet. */
  lemma FrameDecided(z: Zlib, mode: Mode, buf: seq<byte>)
    ensures match ReadVarint(buf)
      case Failure(e) => Pull(z, mode, buf) == if |buf| < 5 then More else Fail(VarIntTooLong(5), buf)
      case Success((n, head)) =>
        && (n < 0 ==> Pull(z, mode, buf) == Fail(NegativeLength(n), buf))
        && (n > 2_097_152 ==> Pull(z, mode, buf) == Fail(FrameTooLarge(n, 2_097_152), buf))
        && (0 <= n <= 2_097_152 && |buf| < head + n ==> Pull(z, mode, buf) == More)
        && (0 <= n <= 2_097_152 && |buf| >= head + n ==>
              Pull(z, mode, buf) == match mode
                case None => Got(buf[head..head + n], buf[head + n..])
                case Some(_) =>
                  match DecodeBody(z, mode, buf[head..head + n])
                  case Success(p) => Got(p, buf[head + n..])
                  case Failure(e) => Fail(e, buf[head + n..]))
  {
    hide ReadVarint;
    VarintRefusals(buf);
  }

  /** The encoder refuses a plain packet over the limit, one that zlib fails on, and a compressed frame
      over the limit; it takes all others. */
  lemma EncoderDecides(z: Zlib, mode: Mode, packet: Packet)
    ensures match mode
      case None =>
        if |packet| <= 2_097_152 then EncodeFrame(z, mode, packet) == Success(VarintOf(|packet|) + packet)
        else EncodeFrame(z, mode, packet) == Failure(FrameTooLarge(|packet|, 2_097_152))
      case Some(threshold) =>
        var deflated := z.deflate(packet);
        && (|packet| < threshold ==> EncodeFrame(z, mode, packet).Success?)
        && (|packet| >= threshold && deflated.None? ==> EncodeFrame(z, mode, packet) == Failure(Compression))
        && (|packet| >= threshold && deflated.Some? ==>
              var n := |VarintOf(|packet|)| + |deflated.value|;
              if n <= 2_097_152
              then EncodeFrame(z, mode, packet) == Success(VarintOf(n) + VarintOf(|packet|) + deflated.value)
              else EncodeFrame(z, mode, packet) == Failure(FrameTooLarge(n, 2_097_152)))
  {
    hide VarintOf;
  }

  // ------------------------------------------------------------------ frame laws

  lemma SmallLength(n: nat)
    requires n <= MAX_FRAME_LEN
    ensures AsSigned(n, 32) == n
  {
    Pow2Of32();
    assert Pow2(32) == 2 * Pow2(31);
    UnsignedRoundTrip(n, 32);
  }

  /** A wrapped length is never the length itself once that is past the limit. */
  lemma WrappedLength(n: nat)
    ensures AsSigned(n, 32) <= n
  {
    DivideBack(n, Pow2(32));
  }

  /** Pulling a frame with a length within the limit hands its body to `DecodeBody`. */
  lemma PullFrame(z: Zlib, mode: Mode, n: nat, tail: seq<byte>)
    requires 0 <= AsSigned(n, 32) <= MAX_FRAME_LEN && AsSigned(n, 32) <= |tail|
    ensures var v := AsSigned(n, 32);
      Pull(z, mode, VarintOf(n) + tail)
      == match DecodeBody(z, mode, tail[..v])
         case Success(packet) => Got(packet, tail[v..])
         case Failure(e) => Fail(e, tail[v..])
  {
    hide VarintOf, ReadVarint, AsSigned;
    var v, h, buf := AsSigned(n, 32), |VarintOf(n)|, VarintOf(n) + tail;
    ReadVarintOf(n, tail);
    assert buf[h..h + v] == tail[..v];
    assert buf[h + v..] == tail[v..];
  }

  lemma PlainBody(z: Zlib, threshold: nat, body: seq<byte>)
    ensures DecodeBody(z, Some(threshold), VarintOf(0) + body) == Success(body)
  {
    ReadVarintOf(0, body);
    SmallLength(0);
    assert (VarintOf(0) + body)[|VarintOf(0)|..] == body;
  }

  /** What the decoder makes of any frame the encoder wrote below the threshold. */
  lemma BelowThreshold(z: Zlib, threshold: nat, packet: Packet, rest: seq<byte>)
    requires |packet| < threshold
    ensures Pull(z, Some(threshold), VarintOf(1 + |packet|) + VarintOf(0) + packet + rest) == Got(packet, rest)
      <==> 1 + |packet| <= MAX_FRAME_LEN
    ensures var p := Pull(z, Some(threshold), VarintOf(1 + |packet|) + VarintOf(0) + packet + rest);
      p.Got? && p.packet == packet ==> 1 + |packet| <= MAX_FRAME_LEN
  {
    hide VarintOf, ReadVarint, AsSigned, DecodeBody;
    var n := 1 + |packet|;
    var v, tail := AsSigned(n, 32), VarintOf(0) + packet + rest;
    var wire := VarintOf(n) + VarintOf(0) + packet + rest;
    assert wire == VarintOf(n) + tail;
    ZeroLength();
    ReadVarintOf(n, tail);
    WrappedLength(n);
    if n <= MAX_FRAME_LEN {
      SmallLength(n);
      PullFrame(z, Some(threshold), n, tail);
      assert tail[..v] == VarintOf(0) + packet && tail[v..] == rest;
      PlainBody(z, threshold, packet);
    } else if 1 <= v <= MAX_FRAME_LEN {
      PullFrame(z, Some(threshold), n, tail);
      assert tail[..v] == VarintOf(0) + packet[..v - 1];
      PlainBody(z, threshold, packet[..v - 1]);
    } else if v == 0 {
      PullFrame(z, Some(threshold), n, tail);
      assert tail[..0] == [];
      EmptyBody(z, threshold);
    }
  }

  lemma ZeroLength()
    ensures VarintOf(0) == [0]
  {
    SmallLength(0);
  }

  lemma EmptyVarint()
    ensures ReadVarint([]) == Failure(UnexpectedEof(1, 0))
  {
  }

  lemma EmptyBody(z: Zlib, threshold: nat)
    ensures DecodeBody(z, Some(threshold), []).Failure?
  {
    EmptyVarint();
  }

  /** What the decoder makes of any frame the encoder compressed. */
  lemma Compressed(z: Zlib, threshold: nat, packet: Packet, body: seq<byte>, rest: seq<byte>)
    requires z.Lawful() && |packet| >= threshold && z.deflate(packet) == Some(body)
    requires |VarintOf(|packet|)| + |body| <= MAX_FRAME_LEN
    ensures var frameLen := |VarintOf(|packet|)| + |body|;
      Pull(z, Some(threshold), VarintOf(frameLen) + VarintOf(|packet|) + body + rest) == Got(packet, rest)
      <==> 0 < |packet| <= MAX_FRAME_LEN
    ensures var frameLen := |VarintOf(|packet|)| + |body|;
      var p := Pull(z, Some(threshold), VarintOf(frameLen) + VarintOf(|packet|) + body + rest);
      p.Got? && p.packet == packet ==> 0 < |packet| <= MAX_FRAME_LEN
  {
    hide VarintOf, ReadVarint, AsSigned;
    var n := |packet|;
    var frame := VarintOf(n) + body;
    var tail := frame + rest;
    SmallLength(|frame|);
    assert VarintOf(|frame|) + VarintOf(n) + body + rest == VarintOf(|frame|) + tail;
    PullFrame(z, Some(threshold), |frame|, tail);
    assert tail[..|frame|] == frame && tail[|frame|..] == rest;
    ReadVarintOf(n, body);
    assert frame[|VarintOf(n)|..] == body;
    WrappedLength(n);
    if n <= MAX_FRAME_LEN { SmallLength(n); }
  }

  /** One frame: the decoder gives back exactly the packets of recoverable size, and nothing is
      left over or taken from what follows. */
  lemma FrameRoundTrip(z: Zlib, mode: Mode, packet: Packet, rest: seq<byte>)
    requires z.Lawful() && EncodeFrame(z, mode, packet).Success?
    ensures Pull(z, mode, EncodeFrame(z, mode, packet).value + rest) == Got(packet, rest)
      <==> Recoverable(mode, |packet|)
    ensures var p := Pull(z, mode, EncodeFrame(z, mode, packet).value + rest);
      p.Got? && p.packet == packet ==> Recoverable(mode, |packet|)
  {
    hide VarintOf, ReadVarint, AsSigned, Pull;
    var wire := EncodeFrame(z, mode, packet).value;
    match mode
    case None =>
      SmallLength(|packet|);
      assert wire + rest == VarintOf(|packet|) + (packet + rest);
      PullFrame(z, mode, |packet|, packet + rest);
      assert (packet + rest)[..|packet|] == packet && (packet + rest)[|packet|..] == rest;
    case Some(threshold) =>
      if |packet| < threshold {
        BelowThreshold(z, threshold, packet, rest);
      } else {
        Compressed(z, threshold, packet, z.deflate(packet).value, rest);
      }
  }

  /** The concrete packet that is not given back: an empty one under threshold 0. */
  lemma EmptyPacketUnderZero(z: Zlib, rest: seq<byte>)
    requires z.Lawful() && EncodeFrame(z, Some(0), []).Success?
    ensures Pull(z, Some(0), EncodeFrame(z, Some(0), []).value + rest) == Got(z.deflate([]).value, rest)
    ensures z.deflate([]).value != []
  {
    hide ReadVarint, AsSigned, Pull, DecodeBody, VarintOf;
    var body := z.deflate([]).value;
    var frame := VarintOf(0) + body;
    SmallLength(|frame|);
    assert EncodeFrame(z, Some(0), []).value + rest == VarintOf(|frame|) + (frame + rest);
    PullFrame(z, Some(0), |frame|, frame + rest);
    assert (frame + rest)[..|frame|] == frame && (frame + rest)[|frame|..] == rest;
    PlainBody(z, 0, body);
  }

  /** A frame that has not fully arrived only asks for more. */
  lemma PartialFrame(z: Zlib, mode: Mode, packet: Packet, k: nat)
    requires EncodeFrame(z, mode, packet).Success? && Recoverable(mode, |packet|)
    requires k < |EncodeFrame(z, mode, packet).value|
    ensures Pull(z, mode, EncodeFrame(z, mode, packet).value[..k]) == More
  {
    hide VarintOf, ReadVarint, AsSigned;
    var wire := EncodeFrame(z, mode, packet).value;
    var n := match mode
      case None => |packet|
      case Some(threshold) =>
        if |packet| < threshold then 1 + |packet| else |VarintOf(|packet|)| + |z.deflate(packet).value|;
    ZeroLength();
    SmallLength(n);
    var head := VarintOf(n);
    assert wire == head + wire[|head|..] && |wire| == |head| + n;
    ReadVarintOf(n, if k < |head| then [] else wire[|head|..k]);
    if k < |head| {
      assert wire[..k] == head[..k];
    } else {
      assert wire[..k] == head + wire[|head|..k];
    }
  }

  // ------------------------------------------------------------------ repeated decoding

  /** More input never changes the outcome of a decode that did not ask for it. */
  lemma PullStable(z: Zlib, mode: Mode, buf: seq<byte>, more: seq<byte>)
    ensures match Pull(z, mode, buf)
      case More => true
      case Got(packet, rest) => Pull(z, mode, buf + more) == Got(packet, rest + more)
      case Fail(e, rest) => Pull(z, mode, buf + more) == Fail(e, rest + more)
  {
    hide DecodeBody, AsSigned, ReadVar;
    if Pull(z, mode, buf) != More {
      ReadVarintStable(buf, more);
      match ReadVarint(buf)
      case Failure(_) =>
      case Success((frameLen, headerLen)) =>
        if 0 <= frameLen <= MAX_FRAME_LEN {
          assert (buf + more)[headerLen..headerLen + frameLen] == buf[headerLen..headerLen + frameLen];
          assert (buf + more)[headerLen + frameLen..] == buf[headerLen + frameLen..] + more;
        }
    }
  }

  lemma ReadVarintStable(buf: seq<byte>, more: seq<byte>)
    requires ReadVarint(buf).Success? || !ReadVarint(buf).error.UnexpectedEof?
    ensures ReadVarint(buf + more) == ReadVarint(buf)
  {
    ReadVarStable(buf, more, MAX_VARINT_BYTES, 32);
  }

  /** Packets decoded in a row, what is left in the buffer, and the error that stopped it, if any. */
  datatype Drained = Drained(packets: seq<Packet>, rest: seq<byte>, error: Option<ProtocolError>)

  function Prepend(packets: seq<Packet>, d: Drained): Drained {
    d.(packets := packets + d.packets)
  }

  type Modes = nat -> Mode

  /** Decoding until the buffer runs dry or fails, packet `i` first. */
  function Drain(z: Zlib, modes: Modes, i: nat, buf: seq<byte>): Drained
    decreases |buf|
  {
    match Pull(z, modes(i), buf)
    case More => Drained([], buf, None)
    case Fail(e, rest) => Drained([], rest, Some(e))
    case Got(packet, rest) => Prepend([packet], Drain(z, modes, i + 1, rest))
  }

  /** Draining a longer stream is draining its front and going on from there. */
  lemma {:induction false} DrainSplits(z: Zlib, modes: Modes, i: nat, buf: seq<byte>, more: seq<byte>)
    ensures var d := Drain(z, modes, i, buf);
      Drain(z, modes, i, buf + more)
      == if d.error.Some? then Drained(d.packets, d.rest + more, d.error)
         else Prepend(d.packets, Drain(z, modes, i + |d.packets|, d.rest + more))
    decreases |buf|
  {
    hide Pull;
    PullStable(z, modes(i), buf, more);
    match Pull(z, modes(i), buf)
    case More => PrependNothing(Drain(z, modes, i, buf + more));
    case Fail(_, _) =>
    case Got(packet, rest) =>
      DrainSplits(z, modes, i + 1, rest, more);
      var d := Drain(z, modes, i + 1, rest);
      PrependTwice([packet], d.packets, Drain(z, modes, i + 1 + |d.packets|, d.rest + more));
  }

  lemma PrependNothing(d: Drained)
    ensures Prepend([], d) == d
  {
    assert [] + d.packets == d.packets;
  }

  lemma PrependTwice(a: seq<Packet>, b: seq<Packet>, d: Drained)
    ensures Prepend(a, Prepend(b, d)) == Prepend(a + b, d)
  {
    assert a + (b + d.packets) == a + b + d.packets;
  }

  // ------------------------------------------------------------------ any interleaving

  datatype Event = Feed(chunk: seq<byte>) | Decode

  /** A decoder in use: its buffer, the packets it has handed out, and the error it stopped at. */
  datatype Session = Session(buffer: seq<byte>, packets: seq<Packet>, error: Option<ProtocolError>)

  const IDLE: Session := Session([], [], None)

  function React(z: Zlib, modes: Modes, s: Session, e: Event): Session {
    match e
    case Feed(chunk) => s.(buffer := s.buffer + chunk)
    case Decode =>
      if s.error.Some? then s
      else match Pull(z, modes(|s.packets|), s.buffer)
        case More => s
        case Got(packet, rest) => s.(buffer := rest, packets := s.packets + [packet])
        case Fail(error, rest) => s.(buffer := rest, error := Some(error))
  }

  function Follow(z: Zlib, modes: Modes, events: seq<Event>): Session {
    if |events| == 0 then IDLE
    else React(z, modes, Follow(z, modes, events[..|events| - 1]), events[|events| - 1])
  }

  /** All bytes fed, in order. */
  function Fed(events: seq<Event>): seq<byte> {
    if |events| == 0 then []
    else
      var before := Fed(events[..|events| - 1]);
      match events[|events| - 1]
      case Feed(chunk) => before + chunk
      case Decode => before
  }

  /** What a session has left to find, together with what it found, is what the whole stream holds. */
  ghost predicate Faithful(z: Zlib, modes: Modes, s: Session, fed: seq<byte>) {
    Drain(z, modes, 0, fed)
    == if s.error.Some? then Drained(s.packets, s.buffer, s.error)
       else Prepend(s.packets, Drain(z, modes, |s.packets|, s.buffer))
  }

  lemma FeedKeepsFaithful(z: Zlib, modes: Modes, s: Session, fed: seq<byte>, chunk: seq<byte>)
    requires Faithful(z, modes, s, fed)
    ensures Faithful(z, modes, s.(buffer := s.buffer + chunk), fed + chunk)
  {
    hide Drain;
    DrainSplits(z, modes, 0, fed, chunk);
    if s.error.None? {
      var d := Drain(z, modes, |s.packets|, s.buffer);
      DrainSplits(z, modes, |s.packets|, s.buffer, chunk);
      if d.error.None? {
        PrependTwice(s.packets, d.packets, Drain(z, modes, |s.packets| + |d.packets|, d.rest + chunk));
      }
    }
  }

  lemma DecodeKeepsFaithful(z: Zlib, modes: Modes, s: Session, fed: seq<byte>)
    requires Faithful(z, modes, s, fed)
    ensures Faithful(z, modes, React(z, modes, s, Decode), fed)
  {
    hide Pull;
    if s.error.None? {
      match Pull(z, modes(|s.packets|), s.buffer)
      case More =>
      case Fail(_, _) => assert s.packets + [] == s.packets;
      case Got(packet, rest) => PrependTwice(s.packets, [packet], Drain(z, modes, |s.packets| + 1, rest));
    }
  }

  lemma ReactKeepsFaithful(z: Zlib, modes: Modes, s: Session, fed: seq<byte>, e: Event)
    requires Faithful(z, modes, s, fed)
    ensures Faithful(z, modes, React(z, modes, s, e), match e case Feed(chunk) => fed + chunk case Decode => fed)
  {
    hide Pull, Faithful;
    match e
    case Feed(chunk) => FeedKeepsFaithful(z, modes, s, fed, chunk);
    case Decode => DecodeKeepsFaithful(z, modes, s, fed);
  }

  /** Every run, whatever the chunks and whenever decoding is tried, is faithful to the bytes fed. */
  lemma {:induction false} FollowIsFaithful(z: Zlib, modes: Modes, events: seq<Event>)
    ensures Faithful(z, modes, Follow(z, modes, events), Fed(events))
  {
    if |events| == 0 {
      PrependNothing(Drain(z, modes, 0, []));
    } else {
      var front := events[..|events| - 1];
      FollowIsFaithful(z, modes, front);
      ReactKeepsFaithful(z, modes, Follow(z, modes, front), Fed(front), events[|events| - 1]);
    }
  }

  /** Two runs fed the same bytes hand out the same packets and errors once both are exhausted;
      until then each has handed out a prefix of them. */
  lemma ChunkingIsInvisible(z: Zlib, modes: Modes, events: seq<Event>)
    ensures var s, d := Follow(z, modes, events), Drain(z, modes, 0, Fed(events));
      s.packets <= d.packets && (s.error.Some? ==> s.packets == d.packets && s.error == d.error)
      && (s.error.Some? || Pull(z, modes(|s.packets|), s.buffer) == More ==>
            d == Drained(s.packets, s.buffer, s.error))
  {
    hide Pull;
    var s := Follow(z, modes, events);
    FollowIsFaithful(z, modes, events);
    if s.error.None? && Pull(z, modes(|s.packets|), s.buffer) == More {
      assert s.packets + [] == s.packets;
    }
  }

  // ------------------------------------------------------------------ a stream from the encoder

  /** The frames of `packets`, packet `i` first; fails where the encoder does. */
  function Wire(z: Zlib, modes: Modes, i: nat, packets: seq<Packet>): Result<seq<byte>, ProtocolError>
    decreases |packets|
  {
    if |packets| == 0 then Success([])
    else
      var frame :- EncodeFrame(z, modes(i), packets[0]);
      var others :- Wire(z, modes, i + 1, packets[1..]);
      Success(frame + others)
  }

  ghost predicate AllRecoverable(modes: Modes, i: nat, packets: seq<Packet>) {
    forall j :: 0 <= j < |packets| ==> Recoverable(modes(i + j), |packets[j]|)
  }

  lemma RecoverableParts(modes: Modes, i: nat, packets: seq<Packet>)
    requires |packets| > 0
    ensures AllRecoverable(modes, i, packets)
      <==> Recoverable(modes(i), |packets[0]|) && AllRecoverable(modes, i + 1, packets[1..])
  {
    hide Recoverable;
    if AllRecoverable(modes, i, packets) {
      assert Recoverable(modes(i + 0), |packets[0]|);
      forall j | 0 <= j < |packets[1..]| ensures Recoverable(modes(i + 1 + j), |packets[1..][j]|) {
        assert Recoverable(modes(i + (j + 1)), |packets[j + 1]|);
      }
    }
    if Recoverable(modes(i), |packets[0]|) && AllRecoverable(modes, i + 1, packets[1..]) {
      forall j | 0 <= j < |packets| ensures Recoverable(modes(i + j), |packets[j]|) {
        if j > 0 { assert Recoverable(modes(i + 1 + (j - 1)), |packets[1..][j - 1]|); }
      }
    }
  }

  /** A whole stream drains to just the packets sent, in order, with nothing left over, exactly when
      each is of recoverable size. */
  lemma {:induction false} WireDrains(z: Zlib, modes: Modes, i: nat, packets: seq<Packet>)
    requires z.Lawful() && Wire(z, modes, i, packets).Success?
    ensures Drain(z, modes, i, Wire(z, modes, i, packets).value) == Drained(packets, [], None)
      <==> AllRecoverable(modes, i, packets)
    decreases |packets|
  {
    hide Pull, EncodeFrame, Recoverable, AllRecoverable;
    if |packets| == 0 {
      NothingToPull(z, modes(i));
      NoneRecoverable(modes, i);
    } else {
      var others := Wire(z, modes, i + 1, packets[1..]).value;
      RecoverableParts(modes, i, packets);
      FrameRoundTrip(z, modes(i), packets[0], others);
      WireDrains(z, modes, i + 1, packets[1..]);
      var wire := Wire(z, modes, i, packets).value;
      assert [packets[0]] + packets[1..] == packets;
      if Drain(z, modes, i, wire) == Drained(packets, [], None) {
        FirstDrained(z, modes, i, wire, packets);
      }
    }
  }

  lemma NoneRecoverable(modes: Modes, i: nat)
    ensures AllRecoverable(modes, i, [])
  {
  }

  /** What drains to some packets starts with the first of them. */
  lemma FirstDrained(z: Zlib, modes: Modes, i: nat, buf: seq<byte>, packets: seq<Packet>)
    requires |packets| > 0 && Drain(z, modes, i, buf) == Drained(packets, [], None)
    ensures var p := Pull(z, modes(i), buf);
      p.Got? && p.packet == packets[0] && Drain(z, modes, i + 1, p.rest) == Drained(packets[1..], [], None)
  {
    hide Pull;
    match Pull(z, modes(i), buf)
    case More =>
    case Fail(_, _) =>
    case Got(packet, rest) =>
      var d := Drain(z, modes, i + 1, rest);
      assert ([packet] + d.packets)[0] == packet && ([packet] + d.packets)[1..] == d.packets;
  }

  lemma NothingToPull(z: Zlib, mode: Mode)
    ensures Pull(z, mode, []) == More
  {
    EmptyVarint();
  }

  /** Of a stream cut anywhere, exactly the packets whose last byte has arrived come out. */
  lemma {:induction false} PrefixDrains(z: Zlib, modes: Modes, i: nat, packets: seq<Packet>, k: nat)
    requires z.Lawful() && Wire(z, modes, i, packets).Success? && AllRecoverable(modes, i, packets)
    requires k <= |Wire(z, modes, i, packets).value|
    ensures var d := Drain(z, modes, i, Wire(z, modes, i, packets).value[..k]);
      d.error.None? && d.packets <= packets
      && Wire(z, modes, i, d.packets).Success? && |Wire(z, modes, i, d.packets).value| <= k
      && (|d.packets| < |packets| ==>
            Wire(z, modes, i, packets[..|d.packets| + 1]).Success?
            && k < |Wire(z, modes, i, packets[..|d.packets| + 1]).value|)
    decreases |packets|
  {
    hide Pull, EncodeFrame, Recoverable;
    var wire := Wire(z, modes, i, packets).value;
    if |packets| == 0 {
      assert wire[..k] == [];
      NothingToPull(z, modes(i));
    } else {
      var frame := EncodeFrame(z, modes(i), packets[0]).value;
      var others := Wire(z, modes, i + 1, packets[1..]).value;
      assert Recoverable(modes(i + 0), |packets[0]|);
      assert packets[..1] == [packets[0]];
      if k < |frame| {
        PartialFrame(z, modes(i), packets[0], k);
        assert wire[..k] == frame[..k];
        OneFrame(z, modes, i, packets[0]);
      } else {
        RecoverableParts(modes, i, packets);
        assert wire[..k] == frame + others[..k - |frame|];
        FrameRoundTrip(z, modes(i), packets[0], others[..k - |frame|]);
        PrefixDrains(z, modes, i + 1, packets[1..], k - |frame|);
        var d := Drain(z, modes, i + 1, others[..k - |frame|]);
        assert ([packets[0]] + d.packets)[1..] == d.packets;
        if |d.packets| < |packets| - 1 {
          assert packets[..|d.packets| + 2][1..] == packets[1..][..|d.packets| + 1];
        }
      }
    }
  }

  lemma OneFrame(z: Zlib, modes: Modes, i: nat, packet: Packet)
    requires EncodeFrame(z, modes(i), packet).Success?
    ensures Wire(z, modes, i, [packet]) == EncodeFrame(z, modes(i), packet)
  {
    var frame := EncodeFrame(z, modes(i), packet).value;
    assert [packet][1..] == [];
    assert frame + [] == frame;
  }

  lemma {:induction false} WirePrefix(z: Zlib, modes: Modes, i: nat, a: seq<Packet>, b: seq<Packet>)
    requires a <= b && Wire(z, modes, i, b).Success?
    ensures Wire(z, modes, i, a).Success?
    ensures |Wire(z, modes, i, a).value| <= |Wire(z, modes, i, b).value|
    decreases |a|
  {
    hide EncodeFrame;
    if |a| == 0 {
    } else {
      WirePrefix(z, modes, i + 1, a[1..], b[1..]);
    }
  }

  /** What a session fed the first `k` bytes of the stream of `packets` has to have found: some of them in
      order, none before its last byte; once it asks for more, all whose last byte has arrived; and at the
      end all of them, with an empty buffer. */
  ghost predicate HearsInOrder(z: Zlib, modes: Modes, packets: seq<Packet>, s: Session, k: nat)
    requires Wire(z, modes, 0, packets).Success?
  {
    && s.error.None? && s.packets <= packets
    && Wire(z, modes, 0, s.packets).Success? && |Wire(z, modes, 0, s.packets).value| <= k
    && (Pull(z, modes(|s.packets|), s.buffer) == More ==>
          (|s.packets| < |packets| ==>
            Wire(z, modes, 0, packets[..|s.packets| + 1]).Success?
            && k < |Wire(z, modes, 0, packets[..|s.packets| + 1]).value|)
          && (k == |Wire(z, modes, 0, packets).value| ==> s == Session([], packets, None)))
  }

  /** The stream law. Packets the encoder accepted, sent under any schedule of modes, cut into any
      chunks and decoded at any moments, come out in order and never before their last byte; once
      the decoder asks for more, all whose last byte has arrived are out; and at the end of the
      stream all are out and the buffer is empty. */
  lemma StreamRoundTrip(z: Zlib, modes: Modes, packets: seq<Packet>, events: seq<Event>)
    requires z.Lawful() && Wire(z, modes, 0, packets).Success? && AllRecoverable(modes, 0, packets)
    requires Fed(events) <= Wire(z, modes, 0, packets).value
    ensures HearsInOrder(z, modes, packets, Follow(z, modes, events), |Fed(events)|)
  {
    hide Pull, EncodeFrame, Recoverable, Follow, Fed, Wire;
    var s, wire, k := Follow(z, modes, events), Wire(z, modes, 0, packets).value, |Fed(events)|;
    assert wire[..k] == Fed(events);
    assert wire[..|wire|] == wire;
    ChunkingIsInvisible(z, modes, events);
    PrefixDrains(z, modes, 0, packets, k);
    WirePrefix(z, modes, 0, s.packets, Drain(z, modes, 0, Fed(events)).packets);
    WireDrains(z, modes, 0, packets);
  }

  /** The intended use: packets of 1 to MAX_FRAME_LEN bytes, thresholds up to that. Nothing more is
      asked of them for the stream law to hold. */
  lemma IntendedPacketsArrive(z: Zlib, modes: Modes, packets: seq<Packet>, events: seq<Event>)
    requires z.Lawful() && Wire(z, modes, 0, packets).Success?
    requires forall p :: p in packets ==> 1 <= |p| <= MAX_FRAME_LEN
    requires forall i: nat :: modes(i).Some? ==> modes(i).value <= MAX_FRAME_LEN
    requires Fed(events) == Wire(z, modes, 0, packets).value
    ensures var s := Follow(z, modes, events);
      s.error.None? && s.packets <= packets
      && (Pull(z, modes(|s.packets|), s.buffer) == More ==> s == Session([], packets, None))
  {
    hide Follow, Fed, Wire, Pull;
    assert AllRecoverable(modes, 0, packets) by {
      forall j | 0 <= j < |packets| ensures Recoverable(modes(0 + j), |packets[j]|) {
        assert packets[j] in packets;
      }
    }
    StreamRoundTrip(z, modes, packets, events);
  }

  /** A stream is the stream of its front followed by that of the rest. */
  lemma {:induction false} WireConcat(z: Zlib, modes: Modes, i: nat, a: seq<Packet>, b: seq<Packet>)
    requires Wire(z, modes, i, a + b).Success?
    ensures Wire(z, modes, i, a).Success? && Wire(z, modes, i + |a|, b).Success?
    ensures Wire(z, modes, i, a + b).value == Wire(z, modes, i, a).value + Wire(z, modes, i + |a|, b).value
    decreases |a|
  {
    hide EncodeFrame;
    if |a| == 0 {
      assert a + b == b;
    } else {
      assert (a + b)[1..] == a[1..] + b;
      WireConcat(z, modes, i + 1, a[1..], b);
      var frame := EncodeFrame(z, modes(i), a[0]).value;
      var rest, tail := Wire(z, modes, i + 1, a[1..]).value, Wire(z, modes, i + |a|, b).value;
      assert frame + (rest + tail) == frame + rest + tail;
    }
  }

  lemma {:induction false} WireAppend(z: Zlib, modes: Modes, i: nat, packets: seq<Packet>, last: Packet)
    requires Wire(z, modes, i, packets).Success? && EncodeFrame(z, modes(i + |packets|), last).Success?
    ensures Wire(z, modes, i, packets + [last])
      == Success(Wire(z, modes, i, packets).value + EncodeFrame(z, modes(i + |packets|), last).value)
    decreases |packets|
  {
    hide EncodeFrame;
    if |packets| == 0 {
      OneFrame(z, modes, i, last);
      assert [] + [last] == [last];
      assert [] + EncodeFrame(z, modes(i), last).value == EncodeFrame(z, modes(i), last).value;
    } else {
      WireAppend(z, modes, i + 1, packets[1..], last);
      assert (packets + [last])[1..] == packets[1..] + [last];
      var frame := EncodeFrame(z, modes(i), packets[0]).value;
      var rest, tail := Wire(z, modes, i + 1, packets[1..]).value, EncodeFrame(z, modes(i + |packets|), last).value;
      assert frame + (rest + tail) == frame + rest + tail;
    }
  }

  /** The length a frame declares, before it is cast. */
  function FrameLen(z: Zlib, mode: Mode, packet: Packet): nat {
    match mode
    case None => |packet|
    case Some(threshold) =>
      if |packet| < threshold then 1 + |packet|
      else match z.deflate(packet)
        case Some(body) => |VarintOf(|packet|)| + |body|
        case None => 0
  }

  /** The encoder declares the length of what follows, and only a packet below the threshold gets past
      the limit on it. */
  lemma OversizedFrames(z: Zlib, mode: Mode, packet: Packet)
    requires EncodeFrame(z, mode, packet).Success?
    ensures var n, wire := FrameLen(z, mode, packet), EncodeFrame(z, mode, packet).value;
      && VarintOf(n) <= wire && |wire| == |VarintOf(n)| + n
      && (n > MAX_FRAME_LEN <==> mode.Some? && |packet| < mode.value && 1 + |packet| > MAX_FRAME_LEN)
  {
    hide VarintOf;
    var wire := EncodeFrame(z, mode, packet).value;
    ZeroLength();
    var head := VarintOf(FrameLen(z, mode, packet));
    assert wire == head + wire[|head|..];
  }

  // ------------------------------------------------------------------ the codec objects

  class Decoder {
    const zlib: Zlib
    var buffer: seq<byte>
    var compression: Mode
    var decryptor: Option<Decryptor>

    constructor (zlib: Zlib)
      ensures this.zlib == zlib && buffer == [] && compression == None && decryptor == None
    {
      this.zlib := zlib;
      buffer, compression, decryptor := [], None, None;
    }

    method EnableCompression(threshold: nat)
      modifies this`compression
      ensures compression == Some(threshold)
    {
      compression := Some(threshold);
    }

    method EnableEncryption(d: Decryptor)
      modifies this`decryptor
      ensures decryptor == Some(d)
    {
      decryptor := Some(d);
    }

    /** Deciphers in place, then buffers; the cipher state carries over to the next feed. */
    method Feed(data: Buffer)
      requires decryptor.Some? ==> decryptor.value as object != data && decryptor.value as object != this
      requires data as object != this
      modifies this`buffer, data, if decryptor.Some? then {decryptor.value} else {}
      ensures decryptor.None? ==> buffer == old(buffer) + old(data.bytes)
      ensures decryptor.Some? ==>
        var d := decryptor.value;
        buffer == old(buffer) + Decipher(d.keystream, d.key, old(d.register), old(data.bytes))
        && d.register == RegisterAfter(old(d.register), old(data.bytes))
    {
      if decryptor.Some? {
        decryptor.value.Decrypt(data);
      }
      buffer := buffer + data.bytes;
    }

    /** One decode is one `Pull` on the buffer. */
    method Decode() returns (r: Result<Option<Packet>, ProtocolError>)
      modifies this`buffer
      ensures match Pull(zlib, compression, old(buffer))
        case More => r == Success(Option<Packet>.None) && buffer == old(buffer)
        case Got(packet, rest) => r == Success(Some(packet)) && buffer == rest
        case Fail(e, rest) => r == Failure(e) && buffer == rest
    {
      hide ReadVar, AsSigned, Rem, InSigned, Pow2;
      var header := ReadVarLoop(buffer, MAX_VARINT_BYTES, 32);
      if header.Failure? {
        if header.error.UnexpectedEof? {
          return Success(Option<Packet>.None);
        }
        return Failure(header.error);
      }
      var frameLen, headerLen := AsSigned(header.value.0, 32), header.value.1;
      if frameLen < 0 {
        return Failure(NegativeLength(frameLen));
      }
      if frameLen > MAX_FRAME_LEN {
        return Failure(FrameTooLarge(frameLen, MAX_FRAME_LEN));
      }
      if |buffer| < headerLen + frameLen {
        return Success(Option<Packet>.None);
      }
      var frame := buffer[headerLen..headerLen + frameLen];
      buffer := buffer[headerLen + frameLen..];
      if compression.None? {
        return Success(Some(frame));
      }
      var threshold := compression.value;
      var inner := ReadVarLoop(frame, MAX_VARINT_BYTES, 32);
      if inner.Failure? {
        return Failure(inner.error);
      }
      var dataLen, used := AsSigned(inner.value.0, 32), inner.value.1;
      if dataLen == 0 {
        return Success(Some(frame[used..]));
      }
      if dataLen < 0 {
        return Failure(NegativeLength(dataLen));
      }
      if dataLen < threshold {
        return Failure(BadlyCompressed(dataLen, threshold));
      }
      if dataLen > MAX_FRAME_LEN {
        return Failure(DecompressedTooLarge(dataLen, MAX_FRAME_LEN));
      }
      match InflateExact(zlib, frame[used..], dataLen)
      case Success(out) => return Success(Some(out));
      case Failure(e) => return Failure(e);
    }
  }

  class Encoder {
    const zlib: Zlib
    var compression: Mode
    var encryptor: Option<Encryptor>
    var scratch: seq<byte>

    constructor (zlib: Zlib)
      ensures this.zlib == zlib && compression == None && encryptor == None
    {
      this.zlib := zlib;
      compression, encryptor, scratch := None, None, [];
    }

    method EnableCompression(threshold: nat)
      modifies this`compression
      ensures compression == Some(threshold)
    {
      compression := Some(threshold);
    }

    method EnableEncryption(e: Encryptor)
      modifies this`encryptor
      ensures encryptor == Some(e)
    {
      encryptor := Some(e);
    }

    /** Appends one frame and enciphers exactly the bytes it appended; an error changes nothing. */
    method Encode(packet: Packet, out: Buffer) returns (r: Result<(), ProtocolError>)
      requires out as object != this
      requires encryptor.Some? ==> encryptor.value as object != out && encryptor.value as object != this
      modifies this`scratch, out, if encryptor.Some? then {encryptor.value} else {}
      ensures match EncodeFrame(zlib, compression, packet)
        case Failure(e) =>
          r == Failure(e) && out.bytes == old(out.bytes)
          && (encryptor.Some? ==> encryptor.value.register == old(encryptor.value.register))
        case Success(frame) =>
          r == Success(()) && match encryptor
            case None => out.bytes == old(out.bytes) + frame
            case Some(e) =>
              out.bytes == old(out.bytes) + Encipher(e.keystream, e.key, old(e.register), frame)
              && e.register == RegisterAfter(old(e.register), Encipher(e.keystream, e.key, old(e.register), frame))
    {
      hide VarBytes, AsSigned, AsUnsigned, Encipher, RegisterAfter;
      var start := |out.bytes|;
      r := WriteFrame(packet, out);
      if r.Success? && encryptor.Some? {
        ghost var frame := out.bytes[start..];
        assert out.bytes[..start] == old(out.bytes);
        encryptor.value.Encrypt(out, start);
        ghost var e := encryptor.value;
        assert out.bytes[start..] == Encipher(e.keystream, e.key, old(e.register), frame);
      }
    }

    /** Appends one frame in the clear. */
    method WriteFrame(packet: Packet, out: Buffer) returns (r: Result<(), ProtocolError>)
      requires out as object != this
      modifies this`scratch, out
      ensures match EncodeFrame(zlib, compression, packet)
        case Failure(e) => r == Failure(e) && out.bytes == old(out.bytes)
        case Success(frame) => r == Success(()) && out.bytes == old(out.bytes) + frame
    {
      hide VarBytes, AsSigned, AsUnsigned, ReadVar, Pow2, InSigned, Rem, BitLength, Terminator, Payload;
      match compression {
        case None =>
          if |packet| > MAX_FRAME_LEN {
            return Failure(FrameTooLarge(|packet|, MAX_FRAME_LEN));
          }
          WriteVarint(out, AsSigned(|packet|, 32));
          out.bytes := out.bytes + packet;
        case Some(threshold) =>
          if |packet| < threshold {
            WriteVarint(out, AsSigned(1 + |packet|, 32));
            WriteVarint(out, AsSigned(0, 32));
            out.bytes := out.bytes + packet;
          } else {
            match zlib.deflate(packet) {
              case None => return Failure(Compression);
              case Some(body) =>
                scratch := body;
                VarintRoundTrip(AsSigned(|packet|, 32), []);
                var frameLen := VarLen(AsUnsigned(AsSigned(|packet|, 32), 32)) + |scratch|;
                if frameLen > MAX_FRAME_LEN {
                  return Failure(FrameTooLarge(frameLen, MAX_FRAME_LEN));
                }
                WriteVarint(out, AsSigned(frameLen, 32));
                WriteVarint(out, AsSigned(|packet|, 32));
                out.bytes := out.bytes + scratch;
            }
          }
      }
      return Success(());
    }
  }
}
