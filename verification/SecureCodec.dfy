/**
  Frames under encryption. A link is a decoder that is fed chunks, tried at any moment, and at one
  point starts to decipher what it is fed; the sender starts to encipher at the same point of its
  stream.
 */
module SecureCodecs {
  import opened Powers
  import opened Bytes
  import opened Varints
  import opened Crypts
  import opened Codecs
  import opened Wrappers

  /** A block cipher, its key, and the register a cipher starts with. */
  datatype Cipher = Cipher(keystream: Keystream, key: seq<byte>, start: seq<byte>) {
    function Seal(register: seq<byte>, plain: seq<byte>): seq<byte> {
      Encipher(keystream, key, register, plain)
    }

    function Open(register: seq<byte>, secret: seq<byte>): seq<byte> {
      Decipher(keystream, key, register, secret)
    }
  }

  // ------------------------------------------------------------------ the sending side

  /** The frames of `packets`, each enciphered as it is encoded, the register carried along. */
  function SealedWire(
    z: Zlib, modes: Modes, x: Cipher, register: seq<byte>, i: nat, packets: seq<Packet>)
    : Result<seq<byte>, ProtocolError>
    decreases |packets|
  {
    if |packets| == 0 then Success([])
    else
      var frame :- EncodeFrame(z, modes(i), packets[0]);
      var secret := x.Seal(register, frame);
      var others :- SealedWire(z, modes, x, RegisterAfter(register, secret), i + 1, packets[1..]);
      Success(secret + others)
  }

  /** Enciphering frame by frame is enciphering the stream: each byte once, with one running state. */
  lemma {:induction false} SealedWireIsSealed(
    z: Zlib, modes: Modes, x: Cipher, register: seq<byte>, i: nat, packets: seq<Packet>)
    ensures SealedWire(z, modes, x, register, i, packets).Success? <==> Wire(z, modes, i, packets).Success?
    ensures Wire(z, modes, i, packets).Success? ==>
      SealedWire(z, modes, x, register, i, packets).value == x.Seal(register, Wire(z, modes, i, packets).value)
    decreases |packets|
  {
    hide EncodeFrame, RegisterAfter, Encipher;
    if |packets| == 0 {
      assert x.Seal(register, []) == [];
    } else if EncodeFrame(z, modes(i), packets[0]).Success? {
      var frame := EncodeFrame(z, modes(i), packets[0]).value;
      var next := RegisterAfter(register, x.Seal(register, frame));
      SealedWireIsSealed(z, modes, x, next, i + 1, packets[1..]);
      if Wire(z, modes, i + 1, packets[1..]).Success? {
        EncipherSplits(x.keystream, x.key, register, frame, Wire(z, modes, i + 1, packets[1..]).value);
      }
    }
  }

  /** One mode for every packet. */
  function Always(mode: Mode): Modes {
    (i: nat) => mode
  }

  /** Many packets appended to one buffer by one encoder: the buffer gains the stream, enciphered as a
      whole if encryption is on. It stops at the first packet the encoder refuses. */
  method EncodeAll(e: Encoder, packets: seq<Packet>, out: Buffer) returns (r: Result<(), ProtocolError>, sent: nat)
    requires out as object != e
    requires e.encryptor.Some? ==> e.encryptor.value as object != out && e.encryptor.value as object != e
    modifies e`scratch, out, if e.encryptor.Some? then {e.encryptor.value} else {}
    ensures sent <= |packets| && (r.Success? <==> sent == |packets|)
    ensures r.Failure? ==> EncodeFrame(e.zlib, e.compression, packets[sent]) == Failure(r.error)
    ensures var stream := Wire(e.zlib, Always(e.compression), 0, packets[..sent]);
      && stream.Success?
      && match e.encryptor
         case None => out.bytes == old(out.bytes) + stream.value
         case Some(c) =>
           && out.bytes == old(out.bytes) + Encipher(c.keystream, c.key, old(c.register), stream.value)
           && c.register == RegisterAfter(old(c.register), Encipher(c.keystream, c.key, old(c.register), stream.value))
  {
    hide EncodeFrame, Encipher, RegisterAfter, Wire;
    ghost var modes := Always(e.compression);
    sent := 0;
    NothingSent(e.zlib, modes);
    if e.encryptor.Some? {
      NothingSealed(e.encryptor.value.keystream, e.encryptor.value.key, e.encryptor.value.register);
    }
    while sent < |packets|
      invariant sent <= |packets| && Wire(e.zlib, modes, 0, packets[..sent]).Success?
      invariant var stream := Wire(e.zlib, modes, 0, packets[..sent]).value;
        match e.encryptor
        case None => out.bytes == old(out.bytes) + stream
        case Some(c) =>
          && out.bytes == old(out.bytes) + Encipher(c.keystream, c.key, old(c.register), stream)
          && c.register == RegisterAfter(old(c.register), Encipher(c.keystream, c.key, old(c.register), stream))
    {
      var one := e.Encode(packets[sent], out);
      if one.Failure? {
        return one, sent;
      }
      ghost var stream := Wire(e.zlib, modes, 0, packets[..sent]).value;
      ghost var frame := EncodeFrame(e.zlib, e.compression, packets[sent]).value;
      assert packets[..sent] + [packets[sent]] == packets[..sent + 1];
      WireAppend(e.zlib, modes, 0, packets[..sent], packets[sent]);
      if e.encryptor.Some? {
        ghost var c := e.encryptor.value;
        EncipherSplits(c.keystream, c.key, old(c.register), stream, frame);
        SealedOn(c.keystream, c.key, old(c.register), stream, frame);
      }
      sent := sent + 1;
    }
    assert packets[..sent] == packets;
    return Success(()), sent;
  }

  lemma NothingSent(z: Zlib, modes: Modes)
    ensures forall packets: seq<Packet> :: |packets| == 0 ==> Wire(z, modes, 0, packets) == Success([])
  {
  }

  lemma NothingSealed(f: Keystream, key: seq<byte>, register: seq<byte>)
    ensures Encipher(f, key, register, []) == [] && RegisterAfter(register, []) == register
  {
  }

  /** Where the register is after one more frame. */
  lemma SealedOn(f: Keystream, key: seq<byte>, register: seq<byte>, a: seq<byte>, b: seq<byte>)
    ensures var first := Encipher(f, key, register, a);
      var second := Encipher(f, key, RegisterAfter(register, first), b);
      RegisterAfter(RegisterAfter(register, first), second)
      == RegisterAfter(register, Encipher(f, key, register, a + b))
  {
    EncipherSplits(f, key, register, a, b);
    var first := Encipher(f, key, register, a);
    RegisterSplits(register, first, Encipher(f, key, RegisterAfter(register, first), b));
  }

  // ------------------------------------------------------------------ the receiving side

  datatype Signal = Chunk(bytes: seq<byte>) | Attempt | Switch

  /** A decoder with the register of its decryptor, once it has one. */
  datatype Link = Link(session: Session, register: Option<seq<byte>>)

  /** `Switch` is `enable_encryption`; a chunk is deciphered when it is fed. */
  function Meet(z: Zlib, modes: Modes, x: Cipher, l: Link, g: Signal): Link {
    match g
    case Attempt => l.(session := React(z, modes, l.session, Decode))
    case Switch => l.(register := Some(x.start))
    case Chunk(bytes) =>
      match l.register
      case None => l.(session := React(z, modes, l.session, Feed(bytes)))
      case Some(register) =>
        Link(React(z, modes, l.session, Feed(x.Open(register, bytes))), Some(RegisterAfter(register, bytes)))
  }

  function Attend(z: Zlib, modes: Modes, x: Cipher, signals: seq<Signal>): Link {
    if |signals| == 0 then Link(IDLE, None)
    else Meet(z, modes, x, Attend(z, modes, x, signals[..|signals| - 1]), signals[|signals| - 1])
  }

  /** The bytes of the chunks as they came. */
  function Raw(signals: seq<Signal>): seq<byte> {
    if |signals| == 0 then []
    else Raw(signals[..|signals| - 1]) + match signals[|signals| - 1]
      case Chunk(bytes) => bytes
      case Attempt => []
      case Switch => []
  }

  predicate Steady(signals: seq<Signal>) {
    Switch !in signals
  }

  /** What an unencrypted decoder would have been fed to the same effect. */
  ghost predicate ActsOn(z: Zlib, modes: Modes, l: Link, events: seq<Event>, bytes: seq<byte>) {
    l.session == Follow(z, modes, events) && Fed(events) == bytes
  }

  lemma FedOn(z: Zlib, modes: Modes, l: Link, events: seq<Event>, bytes: seq<byte>, chunk: seq<byte>, next: Link)
    requires ActsOn(z, modes, l, events, bytes) && next.session == React(z, modes, l.session, Feed(chunk))
    ensures ActsOn(z, modes, next, events + [Feed(chunk)], bytes + chunk)
  {
    hide React;
    var all := events + [Feed(chunk)];
    assert all[..|all| - 1] == events;
  }

  lemma TriedOn(z: Zlib, modes: Modes, l: Link, events: seq<Event>, bytes: seq<byte>, next: Link)
    requires ActsOn(z, modes, l, events, bytes) && next.session == React(z, modes, l.session, Decode)
    ensures ActsOn(z, modes, next, events + [Decode], bytes)
  {
    hide React;
    var all := events + [Decode];
    assert all[..|all| - 1] == events;
  }

  /** Until the switch the link is an unencrypted decoder. */
  lemma {:induction false} PlainLink(z: Zlib, modes: Modes, x: Cipher, signals: seq<Signal>)
    returns (events: seq<Event>)
    requires Steady(signals)
    ensures Attend(z, modes, x, signals).register == None
    ensures ActsOn(z, modes, Attend(z, modes, x, signals), events, Raw(signals))
  {
    hide React, ActsOn;
    if |signals| == 0 {
      events := [];
      Idles(z, modes);
    } else {
      var front, now := signals[..|signals| - 1], Attend(z, modes, x, signals);
      var before := PlainLink(z, modes, x, front);
      var l := Attend(z, modes, x, front);
      match signals[|signals| - 1] {
        case Chunk(bytes) =>
          events := before + [Feed(bytes)];
          FedOn(z, modes, l, before, Raw(front), bytes, now);
        case Attempt =>
          events := before + [Decode];
          assert Raw(signals) == Raw(front) + [] == Raw(front);
          TriedOn(z, modes, l, before, Raw(front), now);
      }
    }
  }

  lemma Idles(z: Zlib, modes: Modes)
    ensures ActsOn(z, modes, Link(IDLE, None), [], [])
  {
  }

  /** After the switch the decoder is fed what the bytes since then decipher to. */
  lemma {:induction false} SecureLink(
    z: Zlib, modes: Modes, x: Cipher, early: seq<Signal>, late: seq<Signal>) returns (events: seq<Event>)
    requires Steady(early) && Steady(late)
    ensures var l := Attend(z, modes, x, early + [Switch] + late);
      && l.register == Some(RegisterAfter(x.start, Raw(late)))
      && ActsOn(z, modes, l, events, Raw(early) + x.Open(x.start, Raw(late)))
  {
    hide React, ActsOn, Decipher, RegisterAfter;
    var all := early + [Switch] + late;
    if |late| == 0 {
      events := PlainLink(z, modes, x, early);
      assert all[..|all| - 1] == early && all[|all| - 1] == Switch;
      NothingOpened(x);
      assert Raw(early) + [] == Raw(early);
      SameSession(z, modes, Attend(z, modes, x, early), Attend(z, modes, x, all), events, Raw(early));
    } else {
      var front := late[..|late| - 1];
      var before := SecureLink(z, modes, x, early, front);
      assert all[..|all| - 1] == early + [Switch] + front && all[|all| - 1] == late[|late| - 1];
      events := SecureStep(z, modes, x, early, late, before);
    }
  }

  lemma SecureStep(
    z: Zlib, modes: Modes, x: Cipher, early: seq<Signal>, late: seq<Signal>, before: seq<Event>)
    returns (events: seq<Event>)
    requires |late| > 0 && late[|late| - 1] != Switch
    requires var front := late[..|late| - 1];
      var l := Attend(z, modes, x, early + [Switch] + front);
      && Attend(z, modes, x, early + [Switch] + late) == Meet(z, modes, x, l, late[|late| - 1])
      && l.register == Some(RegisterAfter(x.start, Raw(front)))
      && ActsOn(z, modes, l, before, Raw(early) + x.Open(x.start, Raw(front)))
    ensures var l := Attend(z, modes, x, early + [Switch] + late);
      && l.register == Some(RegisterAfter(x.start, Raw(late)))
      && ActsOn(z, modes, l, events, Raw(early) + x.Open(x.start, Raw(late)))
  {
    hide React, ActsOn, Decipher, RegisterAfter, Attend;
    var front := late[..|late| - 1];
    var l, now := Attend(z, modes, x, early + [Switch] + front), Attend(z, modes, x, early + [Switch] + late);
    var register := RegisterAfter(x.start, Raw(front));
    match late[|late| - 1] {
      case Chunk(bytes) =>
        var plain := x.Open(register, bytes);
        events := before + [Feed(plain)];
        DecipherSplits(x.keystream, x.key, x.start, Raw(front), bytes);
        RegisterSplits(x.start, Raw(front), bytes);
        assert Raw(early) + x.Open(x.start, Raw(front)) + plain == Raw(early) + (x.Open(x.start, Raw(front)) + plain);
        FedOn(z, modes, l, before, Raw(early) + x.Open(x.start, Raw(front)), plain, now);
      case Attempt =>
        events := before + [Decode];
        assert Raw(late) == Raw(front) + [] == Raw(front);
        TriedOn(z, modes, l, before, Raw(early) + x.Open(x.start, Raw(front)), now);
    }
  }

  lemma NothingOpened(x: Cipher)
    ensures x.Open(x.start, []) == [] && RegisterAfter(x.start, []) == x.start
  {
  }

  lemma SameSession(z: Zlib, modes: Modes, l: Link, m: Link, events: seq<Event>, bytes: seq<byte>)
    requires ActsOn(z, modes, l, events, bytes) && m.session == l.session
    ensures ActsOn(z, modes, m, events, bytes)
  {
  }

  /** The decoder object follows the link, signal by signal. */
  method Serve(d: Decoder, x: Cipher, signals: seq<Signal>) returns (s: Session)
    requires d.buffer == [] && d.decryptor == None
    requires |x.key| == SHARED_SECRET_LEN && x.start == x.key
    modifies d
    ensures d.compression == old(d.compression)
    ensures s == Attend(d.zlib, Always(d.compression), x, signals).session && d.buffer == s.buffer
  {
    hide Pull, Decipher, RegisterAfter;
    s := IDLE;
    for i := 0 to |signals|
      invariant d.compression == old(d.compression) && d.buffer == s.buffer
      invariant var l := Attend(d.zlib, Always(d.compression), x, signals[..i]);
        && s == l.session
        && match d.decryptor
           case None => l.register == None
           case Some(c) => fresh(c) && c.keystream == x.keystream && c.key == x.key && l.register == Some(c.register)
    {
      assert signals[..i + 1][..i] == signals[..i];
      match signals[i] {
        case Chunk(bytes) =>
          var data := new Buffer();
          data.bytes := bytes;
          d.Feed(data);
          s := s.(buffer := d.buffer);
        case Attempt =>
          if s.error.None? {
            var r := d.Decode();
            match r {
              case Success(None) =>
              case Success(Some(packet)) => s := Session(d.buffer, s.packets + [packet], None);
              case Failure(e) => s := Session(d.buffer, s.packets, Some(e));
            }
          }
        case Switch =>
          var c := new Decryptor(x.keystream, x.key);
          d.EnableEncryption(c);
      }
    }
    assert signals[..|signals|] == signals;
  }

  // ------------------------------------------------------------------ the law of the encrypted stream

  lemma ActsInOrder(z: Zlib, modes: Modes, packets: seq<Packet>, l: Link, events: seq<Event>, bytes: seq<byte>)
    requires z.Lawful() && Wire(z, modes, 0, packets).Success? && AllRecoverable(modes, 0, packets)
    requires ActsOn(z, modes, l, events, bytes) && bytes <= Wire(z, modes, 0, packets).value
    ensures HearsInOrder(z, modes, packets, l.session, |bytes|)
  {
    hide Follow, Fed, Wire, Pull, AllRecoverable;
    StreamRoundTrip(z, modes, packets, events);
  }

  /** The encrypted stream law. The sender enciphers from the packets `after` on; the receiver switches
      with exactly the bytes of those `before` fed. Whatever the chunks on either side of the switch, the
      thresholds, and the moments of decoding, all packets come out in order, none before its last byte. */
  lemma SecureStreamRoundTrip(
    z: Zlib, modes: Modes, x: Cipher, before: seq<Packet>, after: seq<Packet>, early: seq<Signal>, late: seq<Signal>)
    requires z.Lawful() && Wire(z, modes, 0, before + after).Success? && AllRecoverable(modes, 0, before + after)
    requires Steady(early) && Steady(late)
    requires Wire(z, modes, 0, before) == Success(Raw(early))
    requires SealedWire(z, modes, x, x.start, |before|, after).Success?
      && Raw(late) <= SealedWire(z, modes, x, x.start, |before|, after).value
    ensures HearsInOrder(z, modes, before + after,
      Attend(z, modes, x, early + [Switch] + late).session, |Raw(early)| + |Raw(late)|)
  {
    hide Wire, SealedWire, Attend, AllRecoverable, ActsOn, HearsInOrder, Decipher, Encipher;
    SealedWireIsSealed(z, modes, x, x.start, |before|, after);
    WireConcat(z, modes, 0, before, after);
    var rest := Wire(z, modes, |before|, after).value;
    var k := |Raw(late)|;
    assert Raw(late) == x.Seal(x.start, rest)[..k];
    SealedPrefix(x, rest, k);
    var events := SecureLink(z, modes, x, early, late);
    assert Raw(early) + rest[..k] <= Raw(early) + rest;
    assert x.Open(x.start, Raw(late)) == rest[..k];
    ActsInOrder(z, modes, before + after, Attend(z, modes, x, early + [Switch] + late), events, Raw(early) + rest[..k]);
  }

  /** A prefix of a ciphertext opens to that prefix of the plaintext. */
  lemma SealedPrefix(x: Cipher, plain: seq<byte>, k: nat)
    requires k <= |x.Seal(x.start, plain)|
    ensures k <= |plain| && x.Open(x.start, x.Seal(x.start, plain)[..k]) == plain[..k]
  {
    assert plain[..k] + plain[k..] == plain;
    EncipherSplits(x.keystream, x.key, x.start, plain[..k], plain[k..]);
    assert x.Seal(x.start, plain)[..k] == x.Seal(x.start, plain[..k]);
    DecipherInverts(x.keystream, x.key, x.start, plain[..k]);
  }

  /** Until the switch it is the plain stream law. */
  lemma PlainStreamRoundTrip(z: Zlib, modes: Modes, x: Cipher, packets: seq<Packet>, signals: seq<Signal>)
    requires z.Lawful() && Wire(z, modes, 0, packets).Success? && AllRecoverable(modes, 0, packets)
    requires Steady(signals) && Raw(signals) <= Wire(z, modes, 0, packets).value
    ensures HearsInOrder(z, modes, packets, Attend(z, modes, x, signals).session, |Raw(signals)|)
  {
    hide Wire, Attend, AllRecoverable, ActsOn, HearsInOrder;
    var events := PlainLink(z, modes, x, signals);
    ActsInOrder(z, modes, packets, Attend(z, modes, x, signals), events, Raw(signals));
  }

  // ------------------------------------------------------------------ the boundary

  /** When the switch comes `j` bytes before the ciphertext, those are deciphered too; the decoder is fed
      the stream exactly when there are none, unless the first keystream byte happens to be zero. */
  lemma SwitchTooEarly(
    z: Zlib, modes: Modes, x: Cipher, plain: seq<byte>, secret: seq<byte>, j: nat,
    early: seq<Signal>, late: seq<Signal>)
    returns (events: seq<Event>)
    requires Steady(early) && Steady(late) && j <= |plain| && x.keystream(x.key, x.start) != 0
    requires Raw(early) == plain[..|plain| - j]
    requires Raw(late) == plain[|plain| - j..] + x.Seal(x.start, secret)
    ensures Attend(z, modes, x, early + [Switch] + late).session == Follow(z, modes, events)
    ensures Fed(events) == plain + secret <==> j == 0
  {
    hide Attend, Follow, Fed, Encipher;
    events := SecureLink(z, modes, x, early, late);
    var n, out := |plain| - j, x.Open(x.start, Raw(late));
    assert Fed(events) == plain[..n] + out;
    if j == 0 {
      assert plain[..n] == plain && Raw(late) == [] + x.Seal(x.start, secret) == x.Seal(x.start, secret);
      DecipherInverts(x.keystream, x.key, x.start, secret);
    } else {
      Pow2Plus8(0);
      XorChanges(plain[n], x.keystream(x.key, x.start), 8);
      assert out[0] == XorByte(plain[n], x.keystream(x.key, x.start));
      assert Fed(events)[n] == out[0] && (plain + secret)[n] == plain[n];
    }
  }

  /** When the switch comes `k` bytes into the ciphertext, those are not deciphered; the same holds. */
  lemma SwitchTooLate(
    z: Zlib, modes: Modes, x: Cipher, plain: seq<byte>, secret: seq<byte>, k: nat,
    early: seq<Signal>, late: seq<Signal>)
    returns (events: seq<Event>)
    requires Steady(early) && Steady(late) && k <= |secret| && x.keystream(x.key, x.start) != 0
    requires Raw(early) == plain + x.Seal(x.start, secret)[..k] && Raw(late) == x.Seal(x.start, secret)[k..]
    ensures Attend(z, modes, x, early + [Switch] + late).session == Follow(z, modes, events)
    ensures Fed(events) == plain + secret <==> k == 0
  {
    hide Attend, Follow, Fed, Encipher, Decipher;
    events := SecureLink(z, modes, x, early, late);
    LateDeciphering(x.keystream, x.key, x.start, secret, k);
    var c := x.Seal(x.start, secret);
    var out := c[..k] + x.Open(x.start, c[k..]);
    assert Fed(events) == plain + out;
    assert (plain + out)[|plain|..] == out && (plain + secret)[|plain|..] == secret;
  }

  /** An instance: under a keystream of ones, a one-byte packet fed before the switch is lost, and an
      empty packet comes out in its place. */
  lemma FedTooEarly(z: Zlib, x: Cipher)
    requires x.keystream == ((k: seq<byte>, r: seq<byte>) => 1)
    ensures var wire := EncodeFrame(z, None, [0]).value;
      && x.Seal(x.start, wire) != wire
      && Pull(z, None, wire) == Got([0], [])
      && Pull(z, None, x.Seal(x.start, wire)) == Got([], [1])
  {
    SmallLength(1);
    SmallLength(0);
    ZeroLength();
    assert VarintOf(1) == [1];
    var wire := EncodeFrame(z, None, [0]).value;
    assert wire == [1, 0];
    PullFrame(z, None, 1, [0]);
    assert VarintOf(1) + [0] == [1, 0] && [0][..1] == [0] && [0][1..] == [];
    LateDeciphering(x.keystream, x.key, x.start, wire, 2);
    var c := x.Seal(x.start, wire);
    assert c[..2] + x.Open(x.start, c[2..]) == c;
    SealedByOnes(x);
    PullFrame(z, None, 0, [1]);
    assert VarintOf(0) + [1] == [0, 1] && [1][..0] == [] && [1][0..] == [1];
  }

  lemma SealedByOnes(x: Cipher)
    requires x.keystream == ((k: seq<byte>, r: seq<byte>) => 1)
    ensures x.Seal(x.start, [1, 0]) == [0, 1]
  {
    XorOnes();
    var next := ShiftIn(x.start, 0);
    assert [1, 0][1..] == [0];
    assert x.Seal(x.start, [1, 0]) == [0] + x.Seal(next, [0]);
    OneByte(x.keystream, x.key, next, 0);
  }

  lemma XorOnes()
    ensures XorByte(1, 1) == 0 && XorByte(0, 1) == 1
  {
    assert Xor(0, 0, 7) == 0;
  }
}
