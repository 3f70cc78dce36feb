/**
  One connection, as a machine whose steps are the stretches between two points where the
  program may be suspended: a read or a decode, one frame written, one visit to the registry.

  Packet bodies are the business of `Formats`; ids, framing and the order of things are modelled.
 */
module Connections {
  import opened Wrappers
  import opened Powers
  import opened Bytes
  import opened Varints
  import opened Codecs
  import opened Players

  const PROTOCOL_VERSION: int := 776

  // ------------------------------------------------------------------ packets

  datatype NextState = Status | Login | Transfer
  datatype Intention = Intention(protocolVersion: int, nextState: NextState)

  datatype Reason = WrongVersion(got: int) | OnlineMode | Refused(why: JoinError) | NoRegistryData

  datatype Clientbound =
    | StatusResponse(online: nat)
    | PongResponse(payload: int)
    | LoginDisconnect(reason: Reason)
    | SetCompression(threshold: nat)
    | LoginFinished(uuid: Uuid, name: string, flag: Option<bool>)
    | Brand
    | KnownPacks
    | Disconnect(reason: Reason)

  function PacketId(p: Clientbound): int {
    match p
    case StatusResponse(_) => 0
    case PongResponse(_) => 1
    case LoginDisconnect(_) => 0
    case SetCompression(_) => 3
    case LoginFinished(_, _, _) => 2
    case Brand => 1
    case KnownPacks => 0x0E
    case Disconnect(_) => 2
  }

  /** Packets that carry nothing the machine looks at; only whether they decode matters. */
  datatype Plain =
    | StatusRequest | LoginAcknowledged | ClientInformation | PacksReply | PluginMessage | KeepAlive
    | FinishConfiguration

  /** Body codecs. `body` leaves out the id, and SetCompression, whose body is known. */
  datatype Formats = Formats(
    intention: seq<byte> -> Result<Intention, ProtocolError>,
    hello: seq<byte> -> Result<string, ProtocolError>,
    ping: seq<byte> -> Result<int, ProtocolError>,
    plain: (Plain, seq<byte>) -> Result<(), ProtocolError>,
    body: Clientbound -> seq<byte>)

  /** What all connections share: configuration, formats, and the identity of offline players. */
  datatype Server = Server(
    compressionThreshold: int, onlineMode: bool, maxPlayers: int, flag: Option<bool>,
    formats: Formats, zlib: Zlib, offlineUuid: string -> Uuid)
  {
    function Compression(): Mode {
      if compressionThreshold < 0 then None else Some(compressionThreshold)
    }

    function Cap(): nat {
      if maxPlayers < 0 then 0 else maxPlayers
    }

    function Render(p: Clientbound): Packet {
      WriteVarintBytes(PacketId(p))
      + if p.SetCompression? then VarintOf(p.threshold) else formats.body(p)
    }

    /** The threshold is an `i32`, zlib is lawful, bodies are of packet size, and no two names
        share an identity. */
    ghost predicate Lawful() {
      && InSigned(compressionThreshold, 32) && zlib.Lawful()
      && (forall p: Clientbound {:trigger formats.body(p)} ::
            !p.StatusResponse? ==> |formats.body(p)| <= MAX_FRAME_LEN - 6)
      && (forall a: string, b: string {:trigger offlineUuid(a), offlineUuid(b)} ::
            offlineUuid(a) == offlineUuid(b) ==> a == b)
    }
  }

  // ------------------------------------------------------------------ reading packets

  datatype ConnError =
    | Io
    | Protocol(error: ProtocolError)
    | Closed
    | TimedOut
    | UnsupportedVersion(got: int)
    | UnexpectedPacket(id: int)
    | Rejected(reason: Reason)

  type Outcome = Result<(), ConnError>

  function Lift<T>(r: Result<T, ProtocolError>): Result<T, ConnError> {
    match r case Success(v) => Success(v) case Failure(e) => Failure(Protocol(e))
  }

  function SplitId(packet: Packet): Result<(int, seq<byte>), ConnError> {
    match ReadVarint(packet)
    case Success((id, used)) => Success((id, packet[used..]))
    case Failure(e) => Failure(Protocol(e))
  }

  function ReadIntention(s: Server, packet: Packet): Result<Intention, ConnError> {
    var (id, body) :- SplitId(packet);
    if id != 0 then Failure(UnexpectedPacket(id)) else Lift(s.formats.intention(body))
  }

  function ReadHello(s: Server, packet: Packet): Result<string, ConnError> {
    var (id, body) :- SplitId(packet);
    if id != 0 then Failure(UnexpectedPacket(id)) else Lift(s.formats.hello(body))
  }

  function ReadAcknowledged(s: Server, packet: Packet): Outcome {
    var (id, body) :- SplitId(packet);
    if id != 3 then Failure(UnexpectedPacket(id)) else Lift(s.formats.plain(LoginAcknowledged, body))
  }

  datatype StatusAsk = Poll | Ping(payload: int)

  function ReadStatus(s: Server, packet: Packet): Result<StatusAsk, ConnError> {
    var (id, body) :- SplitId(packet);
    if id == 0 then
      var _ :- Lift(s.formats.plain(StatusRequest, body));
      Success(Poll)
    else if id == 1 then
      var payload :- Lift(s.formats.ping(body));
      Success(Ping(payload))
    else Failure(UnexpectedPacket(id))
  }

  /** What a configuration packet asks for; unknown ids are passed over. */
  datatype ConfigurationAsk = CarryOn | PacksChosen | Finish

  function ReadConfiguration(s: Server, packet: Packet): Result<ConfigurationAsk, ConnError> {
    var (id, body) :- SplitId(packet);
    var (kind, ask) := match id
      case 0 => (Some(ClientInformation), CarryOn)
      case 2 => (Some(PluginMessage), CarryOn)
      case 3 => (Some(FinishConfiguration), Finish)
      case 4 => (Some(KeepAlive), CarryOn)
      case 7 => (Some(PacksReply), PacksChosen)
      case _ => (None, CarryOn);
    if kind.None? then Success(ask)
    else
      var _ :- Lift(s.formats.plain(kind.value, body));
      Success(ask)
  }

  // ------------------------------------------------------------------ what packets say

  /** The body of a packet that carries this id. */
  function Says(packet: Packet, id: int): Option<seq<byte>> {
    match ReadVarint(packet)
    case Success((i, used)) => if i == id then Some(packet[used..]) else None
    case Failure(_) => None
  }

  /** What a body says, if it decodes. */
  function Decoded<T>(body: Option<seq<byte>>, decode: seq<byte> -> Result<T, ProtocolError>): Option<T> {
    match body
    case None => None
    case Some(bytes) => match decode(bytes) case Success(v) => Some(v) case Failure(_) => None
  }

  function Intended(s: Server, packet: Packet): Option<Intention> {
    Decoded(Says(packet, 0), s.formats.intention)
  }

  function Named(s: Server, packet: Packet): Option<string> {
    Decoded(Says(packet, 0), s.formats.hello)
  }

  function Pinged(s: Server, packet: Packet): Option<int> {
    Decoded(Says(packet, 1), s.formats.ping)
  }

  predicate IsPlain(s: Server, packet: Packet, id: int, kind: Plain) {
    Says(packet, id).Some? && s.formats.plain(kind, Says(packet, id).value).Success?
  }

  predicate AsksStatus(s: Server, packet: Packet) {
    IsPlain(s, packet, 0, StatusRequest)
  }

  predicate Acknowledges(s: Server, packet: Packet) {
    IsPlain(s, packet, 3, LoginAcknowledged)
  }

  predicate Chooses(s: Server, packet: Packet) {
    IsPlain(s, packet, 7, PacksReply)
  }

  predicate Finishes(s: Server, packet: Packet) {
    IsPlain(s, packet, 3, FinishConfiguration)
  }

  /** Settings, plugin messages and keep-alives change nothing, and neither do packets of unknown id. */
  predicate Passes(s: Server, packet: Packet) {
    || IsPlain(s, packet, 0, ClientInformation) || IsPlain(s, packet, 2, PluginMessage)
    || IsPlain(s, packet, 4, KeepAlive)
    || (ReadVarint(packet).Success? && ReadVarint(packet).value.0 !in {0, 2, 3, 4, 7})
  }

  /** The readers accept just the packets that say what they look for. */
  lemma ReadersAgree(s: Server, packet: Packet)
    ensures forall i: Intention :: ReadIntention(s, packet) == Success(i) <==> Intended(s, packet) == Some(i)
    ensures forall name: string :: ReadHello(s, packet) == Success(name) <==> Named(s, packet) == Some(name)
    ensures ReadAcknowledged(s, packet).Success? <==> Acknowledges(s, packet)
    ensures ReadStatus(s, packet) == Success(Poll) <==> AsksStatus(s, packet)
    ensures forall x: int :: ReadStatus(s, packet) == Success(Ping(x)) <==> Pinged(s, packet) == Some(x)
    ensures ReadConfiguration(s, packet) == Success(PacksChosen) <==> Chooses(s, packet)
    ensures ReadConfiguration(s, packet) == Success(Finish) <==> Finishes(s, packet)
    ensures ReadConfiguration(s, packet) == Success(CarryOn) <==> Passes(s, packet)
  {
    hide ReadVarint;
  }

  /** Reading a packet can fail at its id, for its id, or in its body. */
  lemma ReaderErrors(s: Server, packet: Packet)
    ensures match ReadVarint(packet)
      case Failure(e) =>
        && ReadIntention(s, packet) == Failure(Protocol(e)) && ReadHello(s, packet) == Failure(Protocol(e))
        && ReadAcknowledged(s, packet) == Failure(Protocol(e)) && ReadStatus(s, packet) == Failure(Protocol(e))
        && ReadConfiguration(s, packet) == Failure(Protocol(e))
      case Success((id, used)) =>
        && (id != 0 ==> ReadIntention(s, packet) == Failure(UnexpectedPacket(id)))
        && (id != 0 ==> ReadHello(s, packet) == Failure(UnexpectedPacket(id)))
        && (id != 3 ==> ReadAcknowledged(s, packet) == Failure(UnexpectedPacket(id)))
        && (id != 0 && id != 1 ==> ReadStatus(s, packet) == Failure(UnexpectedPacket(id)))
        && (id == 0 ==> ReadIntention(s, packet) == Lift(s.formats.intention(packet[used..])))
        && (id == 0 ==> ReadHello(s, packet) == Lift(s.formats.hello(packet[used..])))
        && (id == 3 ==> ReadAcknowledged(s, packet) == Lift(s.formats.plain(LoginAcknowledged, packet[used..])))
        && (ReadStatus(s, packet).Failure? && (id == 0 || id == 1) ==> ReadStatus(s, packet).error.Protocol?)
        && (ReadConfiguration(s, packet).Failure? ==> ReadConfiguration(s, packet).error.Protocol?)
  {
    hide ReadVarint;
  }

  // ------------------------------------------------------------------ the machine

  datatype Phase =
    | Handshaking
    | InStatus
    | SendingStatus(online: nat)
    | SendingPong(payload: int)
    | RefusingVersion(got: int)
    | AwaitingHello
    | RefusingOnline
    | SendingCompression(name: string)
    | SendingFinished(name: string)
    | AwaitingAck(name: string)
    | Joining(name: string)
    | RefusingJoin(why: JoinError)
    | SendingBrand(name: string)
    | SendingPacks(name: string)
    | Configuring(name: string)
    | RefusingRegistry(name: string)
    | Leaving(name: string, outcome: Outcome)
    | Done(outcome: Outcome)

  /** Decoder and encoder switch together, so one `compression` serves both. `inbound`, `arrived`,
      `sent` and `wire` also keep the history: packets handled, bytes received, packets sent, bytes
      written. */
  datatype Conn = Conn(
    addr: nat, phase: Phase, compression: Mode,
    inbound: Session, arrived: seq<byte>, sent: seq<Clientbound>, wire: seq<byte>)

  function Accepted(addr: nat): Conn {
    Conn(addr, Handshaking, None, IDLE, [], [], [])
  }

  /** What the surroundings decide: the next chunk read (empty at the end of the stream), a read or
      write that fails, after so many bytes of the frame, or a silence that lasts too long. */
  datatype Input = Arrived(chunk: seq<byte>) | ReadFailed | TimeIsUp | WriteFailed(written: nat) | Proceed

  /** The configuration phase never returns past the removal of its player. */
  function Exit(c: Conn, outcome: Outcome): Conn {
    match c.phase
    case SendingBrand(name) => c.(phase := Leaving(name, outcome))
    case SendingPacks(name) => c.(phase := Leaving(name, outcome))
    case Configuring(name) => c.(phase := Leaving(name, outcome))
    case RefusingRegistry(name) => c.(phase := Leaving(name, outcome))
    case _ => c.(phase := Done(outcome))
  }

  /** What is about to be written, if the connection is at a send. */
  function Outgoing(s: Server, phase: Phase): Option<Clientbound> {
    match phase
    case SendingStatus(online) => Some(StatusResponse(online))
    case SendingPong(payload) => Some(PongResponse(payload))
    case RefusingVersion(got) => Some(LoginDisconnect(WrongVersion(got)))
    case RefusingOnline => Some(LoginDisconnect(OnlineMode))
    case SendingCompression(_) =>
      (match s.Compression() case Some(t) => Some(SetCompression(t)) case None => None)
    case SendingFinished(name) => Some(LoginFinished(s.offlineUuid(name), name, s.flag))
    case RefusingJoin(why) => Some(Disconnect(Refused(why)))
    case SendingBrand(_) => Some(Brand)
    case SendingPacks(_) => Some(KnownPacks)
    case RefusingRegistry(_) => Some(Disconnect(NoRegistryData))
    case _ => None
  }

  function AfterSent(s: Server, c: Conn): Conn {
    match c.phase
    case SendingStatus(_) => c.(phase := InStatus)
    case SendingPong(_) => c.(phase := Done(Success(())))
    case RefusingVersion(got) => c.(phase := Done(Failure(UnsupportedVersion(got))))
    case RefusingOnline => c.(phase := Done(Failure(Rejected(OnlineMode))))
    case SendingCompression(name) => c.(compression := s.Compression(), phase := SendingFinished(name))
    case SendingFinished(name) => c.(phase := AwaitingAck(name))
    case RefusingJoin(why) => c.(phase := Done(Failure(Rejected(Refused(why)))))
    case SendingBrand(name) => c.(phase := SendingPacks(name))
    case SendingPacks(name) => c.(phase := Configuring(name))
    case RefusingRegistry(name) => c.(phase := Leaving(name, Failure(Rejected(NoRegistryData))))
    case _ => c
  }

  /** A failed send ends the connection; only the version notice is sent for what it is worth. */
  function AfterFailed(c: Conn, e: ConnError): Conn {
    match c.phase
    case RefusingVersion(got) => c.(phase := Done(Failure(UnsupportedVersion(got))))
    case _ => Exit(c, Failure(e))
  }

  function Transmit(s: Server, c: Conn, packet: Clientbound, input: Input): Conn {
    match EncodeFrame(s.zlib, c.compression, s.Render(packet))
    case Failure(e) => AfterFailed(c, Protocol(e))
    case Success(frame) =>
      if input.WriteFailed? && input.written < |frame| then
        AfterFailed(c.(wire := c.wire + frame[..input.written]), Io)
      else AfterSent(s, c.(sent := c.sent + [packet], wire := c.wire + frame))
  }

  /** One packet handled, `online` players being counted at that moment. */
  function Receive(s: Server, c: Conn, online: nat, packet: Packet): Conn {
    match c.phase
    case Handshaking =>
      (match ReadIntention(s, packet)
       case Failure(e) => Exit(c, Failure(e))
       case Success(i) =>
         if i.nextState.Status? then c.(phase := InStatus)
         else if i.protocolVersion != PROTOCOL_VERSION then c.(phase := RefusingVersion(i.protocolVersion))
         else c.(phase := AwaitingHello))
    case InStatus =>
      (match ReadStatus(s, packet)
       case Failure(e) => Exit(c, Failure(e))
       case Success(Poll) => c.(phase := SendingStatus(online))
       case Success(Ping(payload)) => c.(phase := SendingPong(payload)))
    case AwaitingHello =>
      (match ReadHello(s, packet)
       case Failure(e) => Exit(c, Failure(e))
       case Success(name) =>
         if s.onlineMode then c.(phase := RefusingOnline)
         else if s.Compression().Some? then c.(phase := SendingCompression(name))
         else c.(phase := SendingFinished(name)))
    case AwaitingAck(name) =>
      (match ReadAcknowledged(s, packet)
       case Failure(e) => Exit(c, Failure(e))
       case Success(_) => c.(phase := Joining(name)))
    case Configuring(name) =>
      (match ReadConfiguration(s, packet)
       case Failure(e) => Exit(c, Failure(e))
       case Success(CarryOn) => c
       case Success(PacksChosen) => c.(phase := RefusingRegistry(name))
       case Success(Finish) => Exit(c, Success(())))
    case _ => c
  }

  /** The connection once `packet` is taken from its buffer, and not yet looked at. */
  function Took(c: Conn, packet: Packet, rest: seq<byte>): Conn {
    c.(inbound := Session(rest, c.inbound.packets + [packet], c.inbound.error))
  }

  // ------------------------------------------------------------------ what each phase makes of a packet

  /** Where a phase that reads goes when it cannot go on. */
  lemma ExitOf(c: Conn)
    requires Reading(c.phase)
    ensures forall outcome ::
      Exit(c, outcome)
      == c.(phase := if c.phase.Configuring? then Leaving(c.phase.name, outcome) else Done(outcome))
  {
  }

  /** The handshake: status, or a login of the supported version, or a refusal of any other. */
  lemma HandshakeLaw(s: Server, c: Conn, online: nat, packet: Packet)
    requires c.phase == Handshaking
    ensures var after, said := Receive(s, c, online, packet).phase, Intended(s, packet);
      && (after == InStatus <==> said.Some? && said.value.nextState == Status)
      && (after == AwaitingHello <==>
            said.Some? && said.value.nextState != Status && said.value.protocolVersion == 776)
      && (forall got :: after == RefusingVersion(got) <==>
            said.Some? && said.value.nextState != Status && said.value.protocolVersion == got != 776)
      && (said.None? <==> after.Done? && after.outcome.Failure?)
  {
    hide ReadIntention, Intended, Exit;
    ExitOf(c);
    ReadersAgree(s, packet);
    if ReadIntention(s, packet).Success? { assert Intended(s, packet) == Some(ReadIntention(s, packet).value); }
  }

  /** Status: a request is answered with the players counted, a ping with its payload. */
  lemma StatusLaw(s: Server, c: Conn, online: nat, packet: Packet)
    requires c.phase == InStatus
    ensures var after := Receive(s, c, online, packet).phase;
      && (after == SendingStatus(online) <==> AsksStatus(s, packet))
      && (forall x :: after == SendingPong(x) <==> Pinged(s, packet) == Some(x))
      && (!AsksStatus(s, packet) && Pinged(s, packet).None? <==> after.Done? && after.outcome.Failure?)
  {
    hide ReadStatus, AsksStatus, Pinged, Exit;
    ExitOf(c);
    ReadersAgree(s, packet);
    if Pinged(s, packet).Some? { assert ReadStatus(s, packet) == Success(Ping(Pinged(s, packet).value)); }
    match ReadStatus(s, packet)
    case Success(Ping(x)) => assert Pinged(s, packet) == Some(x);
    case Success(Poll) =>
    case Failure(_) =>
  }

  /** Login: a name is refused in online mode, and otherwise leads to the compression switch or, when
      the threshold is negative, straight to LoginFinished. */
  lemma HelloLaw(s: Server, c: Conn, online: nat, packet: Packet)
    requires c.phase == AwaitingHello
    ensures var after, said := Receive(s, c, online, packet).phase, Named(s, packet);
      && (after == RefusingOnline <==> said.Some? && s.onlineMode)
      && (forall name :: after == SendingCompression(name) <==>
            said == Some(name) && !s.onlineMode && s.compressionThreshold >= 0)
      && (forall name :: after == SendingFinished(name) <==>
            said == Some(name) && !s.onlineMode && s.compressionThreshold < 0)
      && (said.None? <==> after.Done? && after.outcome.Failure?)
  {
    hide ReadHello, Named, Exit;
    ExitOf(c);
    ReadersAgree(s, packet);
    if ReadHello(s, packet).Success? { assert Named(s, packet) == Some(ReadHello(s, packet).value); }
  }

  lemma AcknowledgementLaw(s: Server, c: Conn, online: nat, packet: Packet)
    requires c.phase.AwaitingAck?
    ensures var after := Receive(s, c, online, packet).phase;
      && (after == Joining(c.phase.name) <==> Acknowledges(s, packet))
      && (!Acknowledges(s, packet) <==> after.Done? && after.outcome.Failure?)
  {
    hide ReadAcknowledged, Acknowledges, Exit;
    ExitOf(c);
    assert ReadAcknowledged(s, packet).Success? <==> Acknowledges(s, packet) by { ReadersAgree(s, packet); }
  }

  /** Configuration: the reply to the known packs is what gets refused, the acknowledgement of the end is
      what ends it well, and the rest of what a client may send changes nothing. */
  lemma ConfigurationLaw(s: Server, c: Conn, online: nat, packet: Packet)
    requires c.phase.Configuring?
    ensures var after, name := Receive(s, c, online, packet).phase, c.phase.name;
      && (after == RefusingRegistry(name) <==> Chooses(s, packet))
      && (after == Leaving(name, Success(())) <==> Finishes(s, packet))
      && (after == Configuring(name) <==> Passes(s, packet))
      && (!Chooses(s, packet) && !Finishes(s, packet) && !Passes(s, packet)
          <==> after.Leaving? && after.name == name && after.outcome.Failure?)
  {
    hide ReadConfiguration, Chooses, Finishes, Passes, Exit;
    ExitOf(c);
    var said := ReadConfiguration(s, packet);
    assert (said == Success(PacksChosen) <==> Chooses(s, packet)) && (said == Success(Finish) <==> Finishes(s, packet))
      && (said == Success(CarryOn) <==> Passes(s, packet)) by { ReadersAgree(s, packet); }
    match said
    case Success(CarryOn) =>
    case Success(PacksChosen) =>
    case Success(Finish) =>
    case Failure(_) =>
  }

  /** One turn of the reading loop: decode if a frame is complete, else wait for input. */
  function Read(s: Server, c: Conn, online: nat, input: Input): Conn {
    match Pull(s.zlib, c.compression, c.inbound.buffer)
    case Got(packet, rest) =>
      Receive(s, Took(c, packet, rest), online, packet)
    case Fail(e, rest) =>
      Exit(c.(inbound := Session(rest, c.inbound.packets, Some(e))), Failure(Protocol(e)))
    case More =>
      match input
      case Arrived(chunk) =>
        if |chunk| > 0 then
          c.(inbound := c.inbound.(buffer := c.inbound.buffer + chunk), arrived := c.arrived + chunk)
        else if c.phase.InStatus? then Exit(c, Success(()))
        else Exit(c, Failure(Closed))
      case ReadFailed => Exit(c, Failure(Io))
      case TimeIsUp => Exit(c, Failure(TimedOut))
      case _ => c
  }

  predicate Reading(phase: Phase) {
    phase.Handshaking? || phase.InStatus? || phase.AwaitingHello? || phase.AwaitingAck? || phase.Configuring?
  }

  /** Whether the connection waits on the socket for more bytes. */
  predicate Waits(s: Server, c: Conn) {
    Reading(c.phase) && Pull(s.zlib, c.compression, c.inbound.buffer) == More
  }

  function InfoOf(s: Server, c: Conn, name: string): PlayerInfo {
    PlayerInfo(s.offlineUuid(name), name, c.addr)
  }

  function Step(s: Server, c: Conn, players: Roster, input: Input): (Conn, Roster) {
    match Outgoing(s, c.phase)
    case Some(packet) => (Transmit(s, c, packet, input), players)
    case None =>
      match c.phase
      case Joining(name) =>
        (match Admit(players, InfoOf(s, c, name), s.Cap())
         case Success(after) => (c.(phase := SendingBrand(name)), after)
         case Failure(why) => (c.(phase := RefusingJoin(why)), players))
      case Leaving(name, outcome) => (c.(phase := Done(outcome)), Without(players, s.offlineUuid(name)))
      case _ => if Reading(c.phase) then (Read(s, c, |players|, input), players) else (c, players)
  }

  // ------------------------------------------------------------------ what each phase sends

  /** The step that writes `p` in full: it is recorded, its frame is on the wire, `next` is the phase, and
      after SetCompression its threshold is in force. */
  predicate Sends(s: Server, c: Conn, d: Conn, p: Clientbound, next: Phase) {
    var frame := EncodeFrame(s.zlib, c.compression, s.Render(p));
    frame.Success? ==>
      d == c.(sent := c.sent + [p], wire := c.wire + frame.value, phase := next,
              compression := if p.SetCompression? then Some(p.threshold) else c.compression)
  }

  /** Every answer, greeting, refusal and notice, in its place. */
  lemma SendingLaw(s: Server, c: Conn, players: Roster)
    ensures var d := Step(s, c, players, Proceed).0;
      match c.phase
      case SendingStatus(online) => Sends(s, c, d, StatusResponse(online), InStatus)
      case SendingPong(payload) => Sends(s, c, d, PongResponse(payload), Done(Success(())))
      case RefusingVersion(got) =>
        Sends(s, c, d, LoginDisconnect(WrongVersion(got)), Done(Failure(UnsupportedVersion(got))))
      case RefusingOnline => Sends(s, c, d, LoginDisconnect(OnlineMode), Done(Failure(Rejected(OnlineMode))))
      case SendingCompression(name) =>
        s.compressionThreshold >= 0 ==>
          Sends(s, c, d, SetCompression(s.compressionThreshold), SendingFinished(name))
      case SendingFinished(name) =>
        Sends(s, c, d, LoginFinished(s.offlineUuid(name), name, s.flag), AwaitingAck(name))
      case RefusingJoin(why) => Sends(s, c, d, Disconnect(Refused(why)), Done(Failure(Rejected(Refused(why)))))
      case SendingBrand(name) => Sends(s, c, d, Brand, SendingPacks(name))
      case SendingPacks(name) => Sends(s, c, d, KnownPacks, Configuring(name))
      case RefusingRegistry(name) =>
        Sends(s, c, d, Disconnect(NoRegistryData), Leaving(name, Failure(Rejected(NoRegistryData))))
      case _ => d.sent == c.sent && d.wire == c.wire
  {
    hide EncodeFrame, Server.Render, Pull, Admit;
    if Reading(c.phase) { ReadSendsNothing(s, c, |players|, Proceed); }
  }

  lemma ReadSendsNothing(s: Server, c: Conn, online: nat, input: Input)
    ensures var d := Read(s, c, online, input); d.sent == c.sent && d.wire == c.wire
  {
    hide Pull, ReadIntention, ReadHello, ReadAcknowledged, ReadStatus, ReadConfiguration;
  }

  /** Where a connection ends up that cannot go on: a player in the registry is taken out first. */
  function EndOf(phase: Phase, e: ConnError): Phase {
    match phase
    case RefusingVersion(got) => Done(Failure(UnsupportedVersion(got)))
    case SendingBrand(name) => Leaving(name, Failure(e))
    case SendingPacks(name) => Leaving(name, Failure(e))
    case Configuring(name) => Leaving(name, Failure(e))
    case RefusingRegistry(name) => Leaving(name, Failure(e))
    case _ => Done(Failure(e))
  }

  /** A write that fails leaves its part of the frame on the wire and ends the connection. */
  lemma FailedSendLaw(s: Server, c: Conn, players: Roster, p: Clientbound, written: nat)
    requires Outgoing(s, c.phase) == Some(p)
    ensures var d, frame := Step(s, c, players, WriteFailed(written)).0,
                            EncodeFrame(s.zlib, c.compression, s.Render(p));
      match frame
      case Failure(e) => d == c.(phase := EndOf(c.phase, Protocol(e)))
      case Success(bytes) => written < |bytes| ==>
        d == c.(phase := EndOf(c.phase, Io), wire := c.wire + bytes[..written])
  {
    hide EncodeFrame, Server.Render, AfterSent;
  }

  /** What becomes of a connection that waits: bytes are kept, and silence, an error or the end of the
      stream ends it, the last of these well in the status exchange. */
  lemma WaitingLaw(s: Server, c: Conn, players: Roster, chunk: seq<byte>)
    requires Waits(s, c)
    ensures Step(s, c, players, TimeIsUp).0 == c.(phase := EndOf(c.phase, TimedOut))
    ensures Step(s, c, players, ReadFailed).0 == c.(phase := EndOf(c.phase, Io))
    ensures Step(s, c, players, Arrived([])).0
      == c.(phase := if c.phase == InStatus then Done(Success(())) else EndOf(c.phase, Closed))
    ensures |chunk| > 0 ==>
      Step(s, c, players, Arrived(chunk)).0
      == c.(inbound := c.inbound.(buffer := c.inbound.buffer + chunk), arrived := c.arrived + chunk)
  {
    hide Pull, Receive;
  }

  /** A status request met in the buffer is answered with the players there are at that moment. */
  lemma PollLaw(s: Server, c: Conn, players: Roster, input: Input)
    requires c.phase == InStatus && Pull(s.zlib, c.compression, c.inbound.buffer).Got?
    ensures AsksStatus(s, Pull(s.zlib, c.compression, c.inbound.buffer).packet) <==>
      Step(s, c, players, input).0.phase == SendingStatus(|players|)
  {
    hide Pull, AsksStatus, Receive;
    var p := Pull(s.zlib, c.compression, c.inbound.buffer);
    StatusLaw(s, Took(c, p.packet, p.rest), |players|, p.packet);
  }

  // ------------------------------------------------------------------ the assumptions can be met

  /** A number for each name. */
  function NameNumber(name: string): nat {
    if |name| == 0 then 0 else 1 + name[0] as int + 0x11_0000 * NameNumber(name[1..])
  }

  lemma {:induction false} NameNumberInjective(a: string, b: string)
    requires NameNumber(a) == NameNumber(b)
    ensures a == b
  {
    if |a| > 0 && |b| > 0 {
      assert a[0] as int < 0x11_0000 && b[0] as int < 0x11_0000;
      NameNumberInjective(a[1..], b[1..]);
      assert a == [a[0]] + a[1..] && b == [b[0]] + b[1..];
    }
  }

  /** Stored instead of compressed, names numbered: a server that `Lawful` admits. */
  lemma LawfulServerExists(intention: seq<byte> -> Result<Intention, ProtocolError>,
                           hello: seq<byte> -> Result<string, ProtocolError>,
                           ping: seq<byte> -> Result<int, ProtocolError>,
                           plain: (Plain, seq<byte>) -> Result<(), ProtocolError>)
    ensures var store := Zlib((x: seq<byte>) => Some([0] + x),
                              (y: seq<byte>) => if |y| == 0 then None else Some(y[1..]));
      Server(256, false, 20, None, Formats(intention, hello, ping, plain, _ => []), store, NameNumber).Lawful()
  {
    Pow2Mono(9, 31);
    assert Pow2(9) == 512;
    forall x: seq<byte> ensures ([0] + x)[1..] == x {}
    forall a: string, b: string | NameNumber(a) == NameNumber(b) ensures a == b {
      NameNumberInjective(a, b);
    }
  }
}
