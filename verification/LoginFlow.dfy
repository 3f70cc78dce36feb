/** What holds of one connection at every step, whatever the others do to the registry. */
module LoginFlows {
  import opened Wrappers
  import opened Powers
  import opened Bytes
  import opened Varints
  import opened Codecs
  import opened Players
  import opened Connections

  // ------------------------------------------------------------------ a client that listens

  datatype ClientState = StatusState | LoginState | ConfigurationState

  /** A client that switches its decoder on reading SetCompression, and leaves login on reading
      LoginFinished. */
  datatype Client = Client(state: ClientState, mode: Mode)

  function Notice(client: Client, packet: Packet): Client {
    if !client.state.LoginState? then client
    else match ReadVarint(packet)
      case Failure(_) => client
      case Success((id, used)) =>
        if id == 2 then client.(state := ConfigurationState)
        else if id != 3 then client
        else match ReadVarint(packet[used..])
          case Failure(_) => client
          case Success((threshold, _)) => client.(mode := if threshold < 0 then None else Some(threshold))
  }

  function NoticeAll(client: Client, packets: seq<Packet>): Client
    decreases |packets|
  {
    if |packets| == 0 then client else NoticeAll(Notice(client, packets[0]), packets[1..])
  }

  /** Decoding a stream with the mode changed by what it says. */
  function Listen(z: Zlib, client: Client, buf: seq<byte>): Drained
    decreases |buf|
  {
    match Pull(z, client.mode, buf)
    case More => Drained([], buf, None)
    case Fail(e, rest) => Drained([], rest, Some(e))
    case Got(packet, rest) => Prepend([packet], Listen(z, Notice(client, packet), rest))
  }

  lemma {:induction false} NoticeAppend(client: Client, packets: seq<Packet>, last: Packet)
    ensures NoticeAll(client, packets + [last]) == Notice(NoticeAll(client, packets), last)
    decreases |packets|
  {
    hide Notice;
    if |packets| == 0 {
      assert [last][1..] == [];
    } else {
      NoticeAppend(Notice(client, packets[0]), packets[1..], last);
      assert (packets + [last])[1..] == packets[1..] + [last];
    }
  }

  lemma {:induction false} ListenSplits(z: Zlib, client: Client, buf: seq<byte>, more: seq<byte>)
    requires Listen(z, client, buf).error.None?
    ensures var d := Listen(z, client, buf);
      Listen(z, client, buf + more)
      == Prepend(d.packets, Listen(z, NoticeAll(client, d.packets), d.rest + more))
    decreases |buf|
  {
    hide Pull, Notice;
    PullStable(z, client.mode, buf, more);
    match Pull(z, client.mode, buf)
    case More => PrependNothing(Listen(z, client, buf + more));
    case Fail(_, _) =>
    case Got(packet, rest) =>
      var next := Notice(client, packet);
      ListenSplits(z, next, rest, more);
      var d := Listen(z, next, rest);
      assert ([packet] + d.packets)[1..] == d.packets;
      PrependTwice([packet], d.packets, Listen(z, NoticeAll(next, d.packets), d.rest + more));
  }

  /** One more frame, whole or cut short, after everything heard so far. */
  lemma ListenOn(z: Zlib, client: Client, packets: seq<Packet>, wire: seq<byte>, packet: Packet, cut: nat)
    requires z.Lawful() && Listen(z, client, wire) == Drained(packets, [], None)
    requires var mode := NoticeAll(client, packets).mode;
      EncodeFrame(z, mode, packet).Success? && Recoverable(mode, |packet|)
      && cut <= |EncodeFrame(z, mode, packet).value|
    ensures var frame := EncodeFrame(z, NoticeAll(client, packets).mode, packet).value;
      Listen(z, client, wire + frame[..cut])
      == if cut < |frame| then Drained(packets, frame[..cut], None) else Drained(packets + [packet], [], None)
  {
    hide Pull, EncodeFrame, Recoverable, NoticeAll, Notice;
    var now := NoticeAll(client, packets);
    var frame := EncodeFrame(z, now.mode, packet).value;
    ListenSplits(z, client, wire, frame[..cut]);
    assert [] + frame[..cut] == frame[..cut];
    if cut < |frame| {
      PartialFrame(z, now.mode, packet, cut);
      assert packets + [] == packets;
    } else {
      assert frame[..cut] == frame + [];
      FrameRoundTrip(z, now.mode, packet, []);
      NothingToPull(z, Notice(now, packet).mode);
      assert [packet] + [] == [packet];
    }
  }

  // ------------------------------------------------------------------ schedules and scripts

  predicate IsLogin(s: Server, received: seq<Packet>) {
    |received| > 0 && Intended(s, received[0]).Some?
    && !Intended(s, received[0]).value.nextState.Status?
  }

  /** Packets read before the switch are the handshake and Hello. */
  function InModes(s: Server, login: bool): Modes {
    (i: nat) => if login && i >= 2 then s.Compression() else None
  }

  /** The one packet written before the switch is SetCompression. */
  function OutModes(s: Server, login: bool): Modes {
    (i: nat) => if login && i >= 1 then s.Compression() else None
  }

  function Start(login: bool): Client {
    Client(if login then LoginState else StatusState, None)
  }

  function Rendered(s: Server, sent: seq<Clientbound>): seq<Packet> {
    seq(|sent|, i requires 0 <= i < |sent| => s.Render(sent[i]))
  }

  function Prelude(s: Server): seq<Clientbound> {
    match s.Compression() case Some(t) => [SetCompression(t)] case None => []
  }

  function LoginScript(s: Server, name: string): seq<Clientbound> {
    Prelude(s) + [LoginFinished(s.offlineUuid(name), name, s.flag)]
  }

  function FullScript(s: Server, name: string): seq<Clientbound> {
    LoginScript(s, name) + [Brand, KnownPacks, Disconnect(NoRegistryData)]
  }

  function RefusedScript(s: Server, name: string, why: JoinError): seq<Clientbound> {
    LoginScript(s, name) + [Disconnect(Refused(why))]
  }

  /** What is said, written out: in full, to a refused player, and up to LoginFinished. */
  lemma ScriptLaw(s: Server, name: string, why: JoinError)
    ensures var t, finish := s.compressionThreshold, LoginFinished(s.offlineUuid(name), name, s.flag);
      && LoginScript(s, name) == (if t < 0 then [finish] else [SetCompression(t), finish])
      && FullScript(s, name)
         == (if t < 0 then [finish, Brand, KnownPacks, Disconnect(NoRegistryData)]
             else [SetCompression(t), finish, Brand, KnownPacks, Disconnect(NoRegistryData)])
      && RefusedScript(s, name, why)
         == (if t < 0 then [finish, Disconnect(Refused(why))]
             else [SetCompression(t), finish, Disconnect(Refused(why))])
  {
  }

  /** Each status packet answers the request at its place, and no count exceeds the cap. */
  predicate Answers(s: Server, ask: Packet, p: Clientbound) {
    match p
    case StatusResponse(online) => AsksStatus(s, ask) && online <= s.Cap()
    case PongResponse(payload) => Pinged(s, ask) == Some(payload)
    case _ => false
  }

  ghost predicate AllAnswer(s: Server, received: seq<Packet>, sent: seq<Clientbound>) {
    |sent| < |received| && forall i :: 0 <= i < |sent| ==> Answers(s, received[i + 1], sent[i])
  }

  predicate Opens(s: Server, received: seq<Packet>) {
    IsLogin(s, received) && Intended(s, received[0]).value.protocolVersion == PROTOCOL_VERSION
  }

  predicate Greeted(s: Server, received: seq<Packet>, name: string) {
    |received| >= 2 && Opens(s, received) && Named(s, received[1]) == Some(name)
  }

  predicate Acknowledged(s: Server, received: seq<Packet>, name: string) {
    |received| >= 3 && Greeted(s, received, name) && !s.onlineMode && Acknowledges(s, received[2])
  }

  predicate Chosen(s: Server, received: seq<Packet>) {
    |received| > 3 && Chooses(s, received[|received| - 1])
  }

  /** Everything a connection may have sent, given what it has received. */
  ghost predicate Allowed(s: Server, received: seq<Packet>, sent: seq<Clientbound>) {
    if |received| == 0 || Intended(s, received[0]).None? then sent == []
    else if !IsLogin(s, received) then AllAnswer(s, received, sent)
    else if !Opens(s, received) then
      sent <= [LoginDisconnect(WrongVersion(Intended(s, received[0]).value.protocolVersion))]
    else if |received| == 1 || Named(s, received[1]).None? then sent == []
    else if s.onlineMode then sent <= [LoginDisconnect(OnlineMode)]
    else
      var name := Named(s, received[1]).value;
      if !Acknowledged(s, received, name) then sent <= LoginScript(s, name)
      else
        LoginScript(s, name) <= sent
        && (sent <= FullScript(s, name)
            || sent == RefusedScript(s, name, Full) || sent == RefusedScript(s, name, NameTaken))
        && (sent == FullScript(s, name) ==> Chosen(s, received))
  }

  // ------------------------------------------------------------------ the invariant

  predicate Live(phase: Phase) {
    !phase.Leaving? && !phase.Done?
  }

  /** The client state in which a live phase leaves a client that has heard everything. */
  function StateOf(phase: Phase): ClientState {
    match phase
    case Handshaking => StatusState
    case InStatus => StatusState
    case SendingStatus(_) => StatusState
    case SendingPong(_) => StatusState
    case RefusingVersion(_) => LoginState
    case AwaitingHello => LoginState
    case RefusingOnline => LoginState
    case SendingCompression(_) => LoginState
    case SendingFinished(_) => LoginState
    case _ => ConfigurationState
  }

  /** Where the connection stands: packets received and sent, and the compression in force. */
  ghost predicate InPlace(s: Server, c: Conn) {
    var r, t := c.inbound.packets, c.sent;
    match c.phase
    case Handshaking => r == [] && t == [] && c.compression == None
    case InStatus => Polled(s, c, 1)
    case SendingStatus(n) => Polled(s, c, 2) && Answers(s, r[|r| - 1], StatusResponse(n))
    case SendingPong(p) => Polled(s, c, 2) && Answers(s, r[|r| - 1], PongResponse(p))
    case RefusingVersion(got) =>
      |r| == 1 && IsLogin(s, r) && !Opens(s, r) && got == Intended(s, r[0]).value.protocolVersion
      && t == [] && c.compression == None
    case AwaitingHello => |r| == 1 && Opens(s, r) && t == [] && c.compression == None
    case RefusingOnline =>
      |r| == 2 && Opens(s, r) && Named(s, r[1]).Some? && s.onlineMode && t == [] && c.compression == None
    case SendingCompression(name) =>
      |r| == 2 && Greeted(s, r, name) && !s.onlineMode && s.Compression().Some? && t == [] && c.compression == None
    case SendingFinished(name) =>
      |r| == 2 && Greeted(s, r, name) && !s.onlineMode && t == Prelude(s) && c.compression == s.Compression()
    case AwaitingAck(name) =>
      |r| == 2 && Greeted(s, r, name) && !s.onlineMode && At(s, c, LoginScript(s, name))
    case Joining(name) => Acknowledged(s, r, name) && At(s, c, LoginScript(s, name))
    case RefusingJoin(why) =>
      |r| >= 3 && Named(s, r[1]).Some? && Acknowledged(s, r, Named(s, r[1]).value)
      && At(s, c, LoginScript(s, Named(s, r[1]).value))
    case SendingBrand(name) => Acknowledged(s, r, name) && At(s, c, LoginScript(s, name))
    case SendingPacks(name) => Acknowledged(s, r, name) && At(s, c, LoginScript(s, name) + [Brand])
    case Configuring(name) => Acknowledged(s, r, name) && At(s, c, LoginScript(s, name) + [Brand, KnownPacks])
    case RefusingRegistry(name) =>
      Acknowledged(s, r, name) && Chosen(s, r) && At(s, c, LoginScript(s, name) + [Brand, KnownPacks])
    case Leaving(name, _) => Acknowledged(s, r, name) && Allowed(s, r, t)
    case Done(_) => Allowed(s, r, t)
  }

  ghost predicate At(s: Server, c: Conn, script: seq<Clientbound>) {
    c.sent == script && c.compression == s.Compression()
  }

  /** In the status exchange, with `owed - 1` answers outstanding. */
  ghost predicate Polled(s: Server, c: Conn, owed: nat) {
    var r := c.inbound.packets;
    |r| > 0 && |r| == |c.sent| + owed && Intended(s, r[0]).Some? && !IsLogin(s, r)
    && AllAnswer(s, r, c.sent) && c.compression == None
  }

  /** What the client has to say is read as the stream of one client in step with the server. */
  ghost predicate InboundFaithful(s: Server, c: Conn) {
    var r := c.inbound.packets;
    && (|r| == 0 ==> Faithful(s.zlib, InModes(s, true), c.inbound, c.arrived))
    && Faithful(s.zlib, InModes(s, IsLogin(s, r)), c.inbound, c.arrived)
    && (Live(c.phase) ==> c.inbound.error.None?)
  }

  /** What was written is the frames of the packets sent, each in its scheduled mode, followed by
      part of a frame only if a write failed; and a listening client has heard just those packets. */
  ghost predicate OutboundFramed(s: Server, c: Conn) {
    var login, packets := IsLogin(s, c.inbound.packets), Rendered(s, c.sent);
    var framed := Wire(s.zlib, OutModes(s, login), 0, packets);
    && framed.Success? && framed.value <= c.wire
    && Listen(s.zlib, Start(login), c.wire) == Drained(packets, c.wire[|framed.value|..], None)
    && (Live(c.phase) ==>
          c.wire == framed.value
          && NoticeAll(Start(login), packets) == Client(StateOf(c.phase), c.compression))
  }

  ghost predicate Sound(s: Server, c: Conn) {
    InPlace(s, c) && InboundFaithful(s, c) && OutboundFramed(s, c)
  }

  lemma AcceptedIsSound(s: Server, addr: nat)
    ensures Sound(s, Accepted(addr))
  {
    hide Pull, Drain;
    var c := Accepted(addr);
    PrependNothing(Drain(s.zlib, InModes(s, true), 0, []));
    PrependNothing(Drain(s.zlib, InModes(s, false), 0, []));
    NothingToPull(s.zlib, None);
    assert Rendered(s, c.sent) == [];
    assert c.wire[0..] == [];
  }

  // ------------------------------------------------------------------ sending keeps it

  /** A rendered packet has a known id and never a size the codec loses. */
  lemma RenderedRecovers(s: Server, mode: Mode, p: Clientbound)
    requires s.Lawful() && (mode.Some? ==> !p.StatusResponse?)
    ensures Recoverable(mode, |s.Render(p)|)
  {
    hide VarBytes, AsSigned;
    IdBytes(p);
    if p.SetCompression? { VarintOfLength(p.threshold); }
  }

  lemma VarintOfLength(n: nat)
    ensures 1 <= |VarintOf(n)| <= MAX_VARINT_BYTES
  {
    ReadVarintOf(n, []);
  }

  lemma IdBytes(p: Clientbound)
    ensures InSigned(PacketId(p), 32) && |WriteVarintBytes(PacketId(p))| == 1
  {
    Pow2Of32();
    assert Pow2(32) == 2 * Pow2(31);
    assert AsUnsigned(PacketId(p), 32) == PacketId(p);
  }

  /** What stands at the front of every packet: its id, and after that of SetCompression the threshold. */
  lemma RenderedId(s: Server, p: Clientbound)
    ensures var id: byte := match p
        case StatusResponse(_) => 0x00
        case PongResponse(_) => 0x01
        case LoginDisconnect(_) => 0x00
        case SetCompression(_) => 0x03
        case LoginFinished(_, _, _) => 0x02
        case Brand => 0x01
        case KnownPacks => 0x0E
        case Disconnect(_) => 0x02;
      s.Render(p) == [id] + if p.SetCompression? then WriteVarintBytes(AsSigned(p.threshold, 32)) else s.formats.body(p)
  {
    hide AsSigned;
    IdBytes(p);
  }

  lemma IdReads(s: Server, p: Clientbound)
    ensures ReadVarint(s.Render(p)) == Success((PacketId(p), 1))
  {
    hide VarBytes, AsSigned, AsUnsigned;
    IdBytes(p);
    VarintRoundTrip(PacketId(p), if p.SetCompression? then VarintOf(p.threshold) else s.formats.body(p));
  }

  /** A client that hears the packet of a phase ends up where the server does. */
  lemma NoticeKeepsUp(s: Server, c: Conn)
    requires s.Lawful() && InPlace(s, c) && Outgoing(s, c.phase).Some? && Live(AfterSent(s, c).phase)
    ensures var p, after := Outgoing(s, c.phase).value, AfterSent(s, c);
      Notice(Client(StateOf(c.phase), c.compression), s.Render(p)) == Client(StateOf(after.phase), after.compression)
  {
    hide ReadVarint, WriteVarintBytes, VarintOf, Intended, Named, Acknowledges, AsksStatus, Pinged;
    hide Chooses, Finishes, InSigned;
    var p := Outgoing(s, c.phase).value;
    IdReads(s, p);
    if p.SetCompression? {
      ThresholdReads(s, p);
    }
  }

  lemma ThresholdReads(s: Server, p: Clientbound)
    requires s.Lawful() && s.Compression().Some? && p == SetCompression(s.Compression().value)
    ensures ReadVarint(s.Render(p)[1..]).Success? && ReadVarint(s.Render(p)[1..]).value.0 == p.threshold
  {
    hide VarintOf, ReadVarint;
    IdBytes(p);
    assert s.Render(p)[1..] == VarintOf(p.threshold) + [];
    ReadVarintOf(p.threshold, []);
    ThresholdFits(p.threshold);
  }

  lemma ThresholdFits(n: nat)
    requires InSigned(n, 32)
    ensures AsSigned(n, 32) == n
  {
    assert Pow2(32) == 2 * Pow2(31);
    UnsignedRoundTrip(n, 32);
  }

  lemma RenderedAppend(s: Server, sent: seq<Clientbound>, p: Clientbound)
    ensures Rendered(s, sent + [p]) == Rendered(s, sent) + [s.Render(p)]
  {
    hide WriteVarintBytes, VarintOf;
  }

  /** At a send the mode in force is the scheduled one. */
  lemma SendsOnSchedule(s: Server, c: Conn)
    requires InPlace(s, c) && Outgoing(s, c.phase).Some?
    ensures c.compression == OutModes(s, IsLogin(s, c.inbound.packets))(|c.sent|)
    ensures Outgoing(s, c.phase).value.StatusResponse? ==> c.compression == None
  {
    hide Intended, Named, Acknowledges, AsksStatus, Pinged, Chooses, Finishes, AllAnswer;
  }

  lemma TransmitKeepsFrames(s: Server, c: Conn, input: Input)
    requires s.Lawful() && Sound(s, c) && Outgoing(s, c.phase).Some?
    ensures OutboundFramed(s, Transmit(s, c, Outgoing(s, c.phase).value, input))
  {
    hide InPlace, InboundFaithful, Listen, Wire, EncodeFrame, Recoverable, Notice, NoticeAll, Server.Render;
    hide Server.Lawful, IsLogin, OutModes, StateOf, Pull;
    var p := Outgoing(s, c.phase).value;
    var packet, login := s.Render(p), IsLogin(s, c.inbound.packets);
    var packets, modes := Rendered(s, c.sent), OutModes(s, login);
    assert s.zlib.Lawful() by { LawfulZlib(s); }
    SendsOnSchedule(s, c);
    SendingIsLive(s, c);
    RenderedRecovers(s, c.compression, p);
    assert c.wire[|c.wire|..] == [];
    if EncodeFrame(s.zlib, c.compression, packet).Success? {
      var frame := EncodeFrame(s.zlib, c.compression, packet).value;
      var cut := if input.WriteFailed? && input.written < |frame| then input.written else |frame|;
      ListenOn(s.zlib, Start(login), packets, c.wire, packet, cut);
      var after := Transmit(s, c, p, input);
      if cut < |frame| {
        FailureEnds(s, c.(wire := c.wire + frame[..cut]), Io);
        assert (c.wire + frame[..cut])[|c.wire|..] == frame[..cut];
      } else {
        assert frame[..cut] == frame;
        WireAppend(s.zlib, modes, 0, packets, packet);
        RenderedAppend(s, c.sent, p);
        NoticeAppend(Start(login), packets, packet);
        var sentOne := c.(sent := c.sent + [p], wire := c.wire + frame);
        AfterSentKeeps(s, sentOne);
        assert (c.wire + frame)[|c.wire + frame|..] == [];
        if Live(after.phase) {
          NoticeKeepsUp(s, c);
          AfterSentAlike(s, c, sentOne);
        }
      }
    } else {
      FailureEnds(s, c, Protocol(EncodeFrame(s.zlib, c.compression, packet).error));
    }
  }

  lemma LawfulZlib(s: Server)
    requires s.Lawful()
    ensures s.zlib.Lawful()
  {
  }

  lemma SendingIsLive(s: Server, c: Conn)
    requires Outgoing(s, c.phase).Some?
    ensures Live(c.phase)
  {
  }

  lemma FailureEnds(s: Server, c: Conn, e: ConnError)
    requires Outgoing(s, c.phase).Some?
    ensures var after := AfterFailed(c, e); !Live(after.phase) && after == c.(phase := after.phase)
  {
  }

  lemma AfterSentKeeps(s: Server, c: Conn)
    requires Outgoing(s, c.phase).Some?
    ensures var after := AfterSent(s, c); after == c.(phase := after.phase, compression := after.compression)
  {
  }

  lemma AfterSentAlike(s: Server, c: Conn, d: Conn)
    requires c.phase == d.phase && c.compression == d.compression && Outgoing(s, c.phase).Some?
    ensures AfterSent(s, c).phase == AfterSent(s, d).phase && AfterSent(s, c).compression == AfterSent(s, d).compression
  {
  }

  /** A connection may stop after any part of what it is allowed to say. */
  lemma StoppingIsAllowed(s: Server, c: Conn)
    requires InPlace(s, c)
    ensures Allowed(s, c.inbound.packets, c.sent)
  {
    hide Intended, Named, Acknowledges, AsksStatus, Pinged, Chooses, Finishes, Answers;
  }

  lemma TransmitStaysInPlace(s: Server, c: Conn, input: Input)
    requires InPlace(s, c) && Outgoing(s, c.phase).Some?
    ensures InPlace(s, Transmit(s, c, Outgoing(s, c.phase).value, input))
  {
    hide EncodeFrame, Allowed, InPlace, Server.Render;
    StoppingIsAllowed(s, c);
    var p := Outgoing(s, c.phase).value;
    match EncodeFrame(s.zlib, c.compression, s.Render(p))
    case Failure(e) => FailureStaysInPlace(s, c, c.wire, Protocol(e));
    case Success(frame) =>
      if input.WriteFailed? && input.written < |frame| {
        FailureStaysInPlace(s, c, c.wire + frame[..input.written], Io);
      } else {
        SendingStaysInPlace(s, c, c.wire + frame);
      }
  }

  lemma FailureStaysInPlace(s: Server, c: Conn, wire: seq<byte>, e: ConnError)
    requires InPlace(s, c) && Outgoing(s, c.phase).Some?
    ensures InPlace(s, AfterFailed(c.(wire := wire), e))
  {
    hide Intended, Named, Acknowledges, AsksStatus, Pinged, Chooses, Finishes, Answers, Allowed;
    StoppingIsAllowed(s, c);
  }

  lemma SendingStaysInPlace(s: Server, c: Conn, wire: seq<byte>)
    requires InPlace(s, c) && Outgoing(s, c.phase).Some?
    ensures InPlace(s, AfterSent(s, c.(sent := c.sent + [Outgoing(s, c.phase).value], wire := wire)))
  {
    hide Intended, Named, Acknowledges, AsksStatus, Pinged, Chooses, Finishes, Answers;
    var p, r := Outgoing(s, c.phase).value, c.inbound.packets;
    match c.phase
    case SendingStatus(_) => assert r[|c.sent| + 1] == r[|r| - 1];
    case SendingPong(_) => assert r[|c.sent| + 1] == r[|r| - 1];
    case SendingCompression(_) => assert [] + [p] == [p];
    case SendingFinished(name) => assert c.sent + [p] == LoginScript(s, name);
    case SendingPacks(name) => assert [Brand] + [KnownPacks] == [Brand, KnownPacks];
      assert c.sent + [p] == LoginScript(s, name) + [Brand, KnownPacks];
    case RefusingRegistry(name) =>
      assert c.sent + [p] == FullScript(s, name);
    case RefusingJoin(why) =>
      var name := Named(s, r[1]).value;
      assert c.sent + [p] == RefusedScript(s, name, why);
      assert |c.sent + [p]| < |FullScript(s, name)|;
      assert why == Full || why == NameTaken;
    case _ =>
  }

  // ------------------------------------------------------------------ reading keeps it

  lemma ExitStaysInPlace(s: Server, c: Conn, outcome: Outcome)
    requires InPlace(s, c) && Reading(c.phase)
    ensures InPlace(s, Exit(c, outcome))
  {
    hide Intended, Named, Acknowledges, AsksStatus, Pinged, Chooses, Finishes, Answers, Allowed;
    StoppingIsAllowed(s, c);
  }

  /** What is read is what the packet says. */
  lemma ReadSomething(s: Server, packet: Packet)
    ensures ReadIntention(s, packet).Success? <==> Intended(s, packet).Some?
    ensures Intended(s, packet).Some? ==> ReadIntention(s, packet).value == Intended(s, packet).value
    ensures ReadHello(s, packet).Success? <==> Named(s, packet).Some?
    ensures Named(s, packet).Some? ==> ReadHello(s, packet).value == Named(s, packet).value
    ensures ReadStatus(s, packet).Success? <==> AsksStatus(s, packet) || Pinged(s, packet).Some?
    ensures ReadStatus(s, packet).Success? && ReadStatus(s, packet).value.Ping? ==>
      Pinged(s, packet) == Some(ReadStatus(s, packet).value.payload)
  {
    hide ReadVarint;
  }

  lemma ReceiveStaysInPlace(s: Server, c: Conn, online: nat, packet: Packet, rest: seq<byte>)
    requires InPlace(s, c) && Reading(c.phase) && online <= s.Cap()
    ensures InPlace(s, Receive(s, Took(c, packet, rest), online, packet))
  {
    hide InPlace, Receive;
    ReceiveOnlyMoves(s, Took(c, packet, rest), online, packet);
    match c.phase
    case Handshaking => HandshakeStaysInPlace(s, c, online, packet, rest);
    case InStatus => StatusStaysInPlace(s, c, online, packet, rest);
    case AwaitingHello => HelloStaysInPlace(s, c, online, packet, rest);
    case AwaitingAck(_) => AcknowledgementStaysInPlace(s, c, online, packet, rest);
    case Configuring(_) => ConfigurationStaysInPlace(s, c, online, packet, rest);
  }

  lemma HandshakeStaysInPlace(s: Server, c: Conn, online: nat, packet: Packet, rest: seq<byte>)
    requires InPlace(s, c) && c.phase == Handshaking
    ensures InPlace(s, Receive(s, Took(c, packet, rest), online, packet))
  {
    hide Receive, Intended, Named, Answers, Acknowledges, Chooses, Prelude, LoginScript;
    var took := Took(c, packet, rest);
    ReceiveOnlyMoves(s, took, online, packet);
    HandshakeLaw(s, took, online, packet);
    assert took.inbound.packets == [packet];
    var after, said := Receive(s, took, online, packet).phase, Intended(s, packet);
    if said.Some? && after != InStatus && after != AwaitingHello {
      assert after == RefusingVersion(said.value.protocolVersion);
    }
  }

  lemma StatusStaysInPlace(s: Server, c: Conn, online: nat, packet: Packet, rest: seq<byte>)
    requires InPlace(s, c) && c.phase == InStatus && online <= s.Cap()
    ensures InPlace(s, Receive(s, Took(c, packet, rest), online, packet))
  {
    hide Receive, Intended, Named, AsksStatus, Pinged, Acknowledges, Chooses, Prelude, LoginScript;
    var took := Took(c, packet, rest);
    ReceiveOnlyMoves(s, took, online, packet);
    StatusLaw(s, took, online, packet);
    var r := took.inbound.packets;
    assert r[|r| - 1] == packet;
    assert forall i :: 0 <= i < |c.inbound.packets| ==> r[i] == c.inbound.packets[i];
    assert AllAnswer(s, r, c.sent);
    var after := Receive(s, took, online, packet).phase;
    if Pinged(s, packet).Some? { assert after == SendingPong(Pinged(s, packet).value); }
  }

  lemma HelloStaysInPlace(s: Server, c: Conn, online: nat, packet: Packet, rest: seq<byte>)
    requires InPlace(s, c) && c.phase == AwaitingHello
    ensures InPlace(s, Receive(s, Took(c, packet, rest), online, packet))
  {
    hide Receive, Intended, Named, Answers, Acknowledges, Chooses, LoginScript;
    var took := Took(c, packet, rest);
    ReceiveOnlyMoves(s, took, online, packet);
    HelloLaw(s, took, online, packet);
  }

  lemma AcknowledgementStaysInPlace(s: Server, c: Conn, online: nat, packet: Packet, rest: seq<byte>)
    requires InPlace(s, c) && c.phase.AwaitingAck?
    ensures InPlace(s, Receive(s, Took(c, packet, rest), online, packet))
  {
    hide Receive, Intended, Named, Answers, Acknowledges, Chooses, LoginScript, Allowed;
    var took := Took(c, packet, rest);
    ReceiveOnlyMoves(s, took, online, packet);
    AcknowledgementLaw(s, took, online, packet);
    ReceivedIsAllowed(s, c, packet, rest);
  }

  lemma ConfigurationStaysInPlace(s: Server, c: Conn, online: nat, packet: Packet, rest: seq<byte>)
    requires InPlace(s, c) && c.phase.Configuring?
    ensures InPlace(s, Receive(s, Took(c, packet, rest), online, packet))
  {
    hide Receive, Intended, Named, Answers, Acknowledges, Chooses, Finishes, Passes, LoginScript, Allowed;
    var took := Took(c, packet, rest);
    ReceiveOnlyMoves(s, took, online, packet);
    ConfigurationLaw(s, took, online, packet);
    ReceivedIsAllowed(s, c, packet, rest);
  }

  /** One packet more takes nothing away from what may have been sent. */
  lemma ReceivedIsAllowed(s: Server, c: Conn, packet: Packet, rest: seq<byte>)
    requires InPlace(s, c) && Reading(c.phase)
    ensures Allowed(s, Took(c, packet, rest).inbound.packets, c.sent)
    ensures c.phase.Configuring? ==> Acknowledged(s, Took(c, packet, rest).inbound.packets, c.phase.name)
  {
    hide Intended, Named, Acknowledges, AsksStatus, Pinged, Chooses, Finishes, Answers;
    var r := Took(c, packet, rest).inbound.packets;
    assert forall i :: 0 <= i < |c.inbound.packets| ==> r[i] == c.inbound.packets[i];
  }

  lemma ReadStaysInPlace(s: Server, c: Conn, online: nat, input: Input)
    requires InPlace(s, c) && Reading(c.phase) && online <= s.Cap()
    ensures InPlace(s, Read(s, c, online, input))
  {
    hide InPlace, Pull, Receive;
    match Pull(s.zlib, c.compression, c.inbound.buffer)
    case Got(packet, rest) => ReceiveStaysInPlace(s, c, online, packet, rest);
    case Fail(e, rest) => SameInPlace(s, c, c.(inbound := Session(rest, c.inbound.packets, Some(e))));
      ExitStaysInPlace(s, c.(inbound := Session(rest, c.inbound.packets, Some(e))), Failure(Protocol(e)));
    case More =>
      match input
      case Arrived(chunk) =>
        if |chunk| > 0 {
          SameInPlace(s, c,
            c.(inbound := c.inbound.(buffer := c.inbound.buffer + chunk), arrived := c.arrived + chunk));
        } else {
          ExitStaysInPlace(s, c, Success(()));
          ExitStaysInPlace(s, c, Failure(Closed));
        }
      case ReadFailed => ExitStaysInPlace(s, c, Failure(Io));
      case TimeIsUp => ExitStaysInPlace(s, c, Failure(TimedOut));
      case WriteFailed(_) =>
      case Proceed =>
  }

  lemma SameInPlace(s: Server, c: Conn, d: Conn)
    requires InPlace(s, c) && d.phase == c.phase && d.inbound.packets == c.inbound.packets && d.sent == c.sent
    requires d.compression == c.compression
    ensures InPlace(s, d)
  {
    hide Intended, Named, Acknowledges, AsksStatus, Pinged, Chooses, Finishes, Answers, Allowed;
  }

  /** At a read the decoder's mode is the one the client's stream is in. */
  lemma ReadsOnSchedule(s: Server, c: Conn)
    requires InPlace(s, c) && Reading(c.phase)
    ensures var r := c.inbound.packets;
      c.compression == InModes(s, IsLogin(s, r))(|r|) && (|r| == 0 ==> c.compression == InModes(s, true)(0))
  {
    hide Intended, Named, Acknowledges, AsksStatus, Pinged, Chooses, Finishes, AllAnswer;
  }

  /** Once the first packet is in, which exchange it is does not change. */
  lemma LoginIsSettled(s: Server, received: seq<Packet>, packet: Packet)
    requires |received| > 0
    ensures IsLogin(s, received + [packet]) == IsLogin(s, received)
  {
    hide Intended;
    assert (received + [packet])[0] == received[0];
  }

  lemma InboundStep(s: Server, c: Conn, login: bool, e: Event)
    requires InPlace(s, c) && Reading(c.phase) && InboundFaithful(s, c)
    requires login == IsLogin(s, c.inbound.packets) || |c.inbound.packets| == 0
    ensures Faithful(s.zlib, InModes(s, login), React(s.zlib, InModes(s, login), c.inbound, e),
      match e case Feed(chunk) => c.arrived + chunk case Decode => c.arrived)
    ensures InModes(s, login)(|c.inbound.packets|) == c.compression
  {
    hide Faithful, React, Intended, InPlace;
    ReadsOnSchedule(s, c);
    ReactKeepsFaithful(s.zlib, InModes(s, login), c.inbound, c.arrived, e);
  }

  lemma ReadKeepsInbound(s: Server, c: Conn, online: nat, input: Input)
    requires InPlace(s, c) && Reading(c.phase) && InboundFaithful(s, c)
    ensures InboundFaithful(s, Read(s, c, online, input))
  {
    hide Pull, Faithful, IsLogin, InPlace, Receive, Exit;
    var r, after := c.inbound.packets, Read(s, c, online, input);
    assert c.inbound.error.None? by { ReadingIsLive(c.phase); }
    match Pull(s.zlib, c.compression, c.inbound.buffer)
    case Got(packet, rest) =>
      ReceiveOnlyMoves(s, Took(c, packet, rest), online, packet);
      if |r| > 0 { LoginIsSettled(s, r, packet); }
      InboundStep(s, c, IsLogin(s, r + [packet]), Decode);
    case Fail(e, rest) =>
      ExitOnlyMoves(c.(inbound := Session(rest, r, Some(e))), Failure(Protocol(e)));
      InboundStep(s, c, IsLogin(s, r), Decode);
      if |r| == 0 { InboundStep(s, c, true, Decode); }
    case More =>
      ExitOnlyMoves(c, Success(()));
      ExitOnlyMoves(c, Failure(Closed));
      ExitOnlyMoves(c, Failure(Io));
      ExitOnlyMoves(c, Failure(TimedOut));
      if input.Arrived? && |input.chunk| > 0 {
        InboundStep(s, c, IsLogin(s, r), Feed(input.chunk));
        if |r| == 0 { InboundStep(s, c, true, Feed(input.chunk)); }
      }
  }

  lemma ReadingIsLive(phase: Phase)
    requires Reading(phase)
    ensures Live(phase)
  {
  }

  /** Leaving a read only changes the phase, to one that is not live. */
  lemma ExitOnlyMoves(c: Conn, outcome: Outcome)
    ensures Exit(c, outcome) == c.(phase := Exit(c, outcome).phase) && !Live(Exit(c, outcome).phase)
  {
  }

  lemma ReceiveOnlyMoves(s: Server, c: Conn, online: nat, packet: Packet)
    ensures Receive(s, c, online, packet) == c.(phase := Receive(s, c, online, packet).phase)
  {
    hide ReadIntention, ReadHello, ReadAcknowledged, ReadStatus, ReadConfiguration;
  }

  lemma ReadOnlyMoves(s: Server, c: Conn, online: nat, input: Input)
    ensures var d := Read(s, c, online, input);
      d == c.(phase := d.phase, inbound := d.inbound, arrived := d.arrived)
  {
    hide Pull, Receive, Exit;
    match Pull(s.zlib, c.compression, c.inbound.buffer)
    case Got(packet, rest) => ReceiveOnlyMoves(s, Took(c, packet, rest), online, packet);
    case Fail(e, rest) =>
      ExitOnlyMoves(c.(inbound := Session(rest, c.inbound.packets, Some(e))), Failure(Protocol(e)));
    case More =>
      ExitOnlyMoves(c, Success(()));
      ExitOnlyMoves(c, Failure(Closed));
      ExitOnlyMoves(c, Failure(Io));
      ExitOnlyMoves(c, Failure(TimedOut));
  }

  /** After a read that leaves the connection live, the client is still in step. */
  lemma ReadKeepsState(s: Server, c: Conn, online: nat, input: Input)
    requires InPlace(s, c) && Reading(c.phase)
    ensures var d := Read(s, c, online, input);
      (|c.inbound.packets| > 0 ==> IsLogin(s, d.inbound.packets) == IsLogin(s, c.inbound.packets))
      && (Live(d.phase) && |c.inbound.packets| > 0 ==> StateOf(d.phase) == StateOf(c.phase))
      && (Live(d.phase) && |c.inbound.packets| == 0 ==> StateOf(d.phase) == Start(IsLogin(s, d.inbound.packets)).state)
  {
    hide Pull, Receive, Exit, IsLogin, InPlace;
    match Pull(s.zlib, c.compression, c.inbound.buffer)
    case Got(packet, rest) => ReceiveKeepsState(s, c, online, packet, rest);
    case Fail(e, rest) =>
      ExitOnlyMoves(c.(inbound := Session(rest, c.inbound.packets, Some(e))), Failure(Protocol(e)));
    case More =>
      if |c.inbound.packets| == 0 { NobodySpokeYet(s, c); }
      ExitOnlyMoves(c, Success(()));
      ExitOnlyMoves(c, Failure(Closed));
      ExitOnlyMoves(c, Failure(Io));
      ExitOnlyMoves(c, Failure(TimedOut));
  }

  lemma NobodySpokeYet(s: Server, c: Conn)
    requires InPlace(s, c) && Reading(c.phase) && |c.inbound.packets| == 0
    ensures StateOf(c.phase) == Start(IsLogin(s, c.inbound.packets)).state
  {
    hide Intended, Named, Acknowledges, AllAnswer, Allowed;
  }

  lemma ReceiveKeepsState(s: Server, c: Conn, online: nat, packet: Packet, rest: seq<byte>)
    requires InPlace(s, c) && Reading(c.phase)
    ensures var d := Receive(s, Took(c, packet, rest), online, packet);
      && (|c.inbound.packets| > 0 ==> IsLogin(s, d.inbound.packets) == IsLogin(s, c.inbound.packets))
      && (Live(d.phase) && |c.inbound.packets| > 0 ==> StateOf(d.phase) == StateOf(c.phase))
      && (Live(d.phase) && |c.inbound.packets| == 0 ==> StateOf(d.phase) == Start(IsLogin(s, d.inbound.packets)).state)
  {
    hide Intended, Named, Acknowledges, AsksStatus, Pinged, Chooses, Finishes, AllAnswer, Allowed;
    hide ReadIntention, ReadHello, ReadAcknowledged, ReadStatus, ReadConfiguration;
    ReadSomething(s, packet);
    ReceiveOnlyMoves(s, Took(c, packet, rest), online, packet);
    if |c.inbound.packets| > 0 { LoginIsSettled(s, c.inbound.packets, packet); }
  }

  lemma ReadKeepsFrames(s: Server, c: Conn, online: nat, input: Input)
    requires InPlace(s, c) && Reading(c.phase) && OutboundFramed(s, c)
    ensures OutboundFramed(s, Read(s, c, online, input))
  {
    hide Pull, IsLogin, Read, InPlace, NoticeAll, Wire, Listen, OutModes;
    var d := Read(s, c, online, input);
    ReadOnlyMoves(s, c, online, input);
    ReadKeepsState(s, c, online, input);
    ReadingIsLive(c.phase);
    if |c.inbound.packets| == 0 {
      NothingSentYet(s, c);
      NothingFramed(s, IsLogin(s, c.inbound.packets));
      NothingFramed(s, IsLogin(s, d.inbound.packets));
    }
  }

  lemma NothingSentYet(s: Server, c: Conn)
    requires InPlace(s, c) && Reading(c.phase) && |c.inbound.packets| == 0
    ensures c.sent == [] && c.compression == None
  {
    hide Intended, Named, Acknowledges, AsksStatus, Pinged, Chooses, Finishes, AllAnswer, Allowed;
  }

  lemma NothingFramed(s: Server, login: bool)
    ensures Rendered(s, []) == [] && Wire(s.zlib, OutModes(s, login), 0, []) == Success([])
    ensures Listen(s.zlib, Start(login), []) == Drained([], [], None)
    ensures NoticeAll(Start(login), []) == Start(login)
  {
    hide Pull;
    NothingToPull(s.zlib, None);
  }

  // ------------------------------------------------------------------ every step keeps it

  lemma StepKeepsSound(s: Server, c: Conn, players: Roster, input: Input)
    requires s.Lawful() && Sound(s, c) && |players| <= s.Cap()
    ensures Sound(s, Step(s, c, players, input).0)
  {
    hide InPlace, InboundFaithful, OutboundFramed, Server.Lawful, Transmit, Read, Admit;
    if Outgoing(s, c.phase).Some? {
      TransmitStaysInPlace(s, c, input);
      TransmitKeepsFrames(s, c, input);
      TransmitKeepsInbound(s, c, input);
    } else if Reading(c.phase) {
      ReadStaysInPlace(s, c, |players|, input);
      ReadKeepsInbound(s, c, |players|, input);
      ReadKeepsFrames(s, c, |players|, input);
    } else {
      RegistryStepKeepsSound(s, c, players, input);
    }
  }

  lemma TransmitKeepsInbound(s: Server, c: Conn, input: Input)
    requires InboundFaithful(s, c) && Outgoing(s, c.phase).Some?
    ensures InboundFaithful(s, Transmit(s, c, Outgoing(s, c.phase).value, input))
  {
    hide EncodeFrame, Faithful, InModes, IsLogin, Server.Render, AfterFailed, AfterSent;
    var p := Outgoing(s, c.phase).value;
    SendingIsLive(s, c);
    match EncodeFrame(s.zlib, c.compression, s.Render(p))
    case Failure(e) => FailureEnds(s, c, Protocol(e));
    case Success(frame) =>
      if input.WriteFailed? && input.written < |frame| {
        FailureEnds(s, c.(wire := c.wire + frame[..input.written]), Io);
      } else {
        AfterSentKeeps(s, c.(sent := c.sent + [p], wire := c.wire + frame));
      }
  }

  lemma RegistryStepKeepsSound(s: Server, c: Conn, players: Roster, input: Input)
    requires Sound(s, c) && Outgoing(s, c.phase).None? && !Reading(c.phase)
    ensures Sound(s, Step(s, c, players, input).0)
  {
    hide Intended, Named, Acknowledges, AsksStatus, Pinged, Chooses, Finishes, AllAnswer, Allowed;
    hide Faithful, InModes, IsLogin, Listen, Wire, OutModes, NoticeAll, Admit, Read, Transmit;
  }

  // ------------------------------------------------------------------ how it ends

  function LastOf(received: seq<Packet>): Packet
    requires |received| > 0
  {
    received[|received| - 1]
  }

  /** A packet of the client that no reader of its phase accepts. */
  predicate Refuses(s: Server, packet: Packet, e: ConnError) {
    || ReadIntention(s, packet) == Failure(e) || ReadHello(s, packet) == Failure(e)
    || ReadAcknowledged(s, packet) == Failure(e) || ReadStatus(s, packet) == Failure(e)
    || ReadConfiguration(s, packet) == Failure(e)
  }

  /** No complete packet is waiting to be decoded. */
  predicate Dry(s: Server, c: Conn) {
    Pull(s.zlib, c.compression, c.inbound.buffer) == More
  }

  /** A status exchange that ended well: the last request was a ping and has its pong, or every
      request was answered when the client hung up. */
  ghost predicate StatusEnded(s: Server, c: Conn) {
    var r, t := c.inbound.packets, c.sent;
    && |t| == |r| - 1 && AllAnswer(s, r, t)
    && (Dry(s, c) || (|t| > 0 && t[|t| - 1].PongResponse?))
  }

  /** What must have happened for a connection to end this way. */
  ghost predicate Explains(s: Server, c: Conn, outcome: Outcome) {
    var r, t := c.inbound.packets, c.sent;
    match outcome
    case Success(_) =>
      |r| > 0 && Intended(s, r[0]).Some?
      && if IsLogin(s, r)
         then exists name: string :: Acknowledged(s, r, name) && Finishes(s, LastOf(r))
         else StatusEnded(s, c)
    case Failure(UnsupportedVersion(got)) =>
      |r| == 1 && IsLogin(s, r) && !Opens(s, r) && got == Intended(s, r[0]).value.protocolVersion
    case Failure(UnexpectedPacket(id)) => |r| > 0 && SplitId(LastOf(r)).Success? && SplitId(LastOf(r)).value.0 == id
    case Failure(Rejected(WrongVersion(_))) => false
    case Failure(Rejected(OnlineMode)) => s.onlineMode && t == [LoginDisconnect(OnlineMode)]
    case Failure(Rejected(Refused(why))) => |r| >= 3 && Named(s, r[1]).Some?
      && Acknowledged(s, r, Named(s, r[1]).value) && t == RefusedScript(s, Named(s, r[1]).value, why)
    case Failure(Rejected(NoRegistryData)) => |r| > 3 && Named(s, r[1]).Some?
      && Chosen(s, r) && t == FullScript(s, Named(s, r[1]).value)
    case Failure(Protocol(e)) =>
      || c.inbound.error == Some(e) || (|r| > 0 && Refuses(s, LastOf(r), Protocol(e)))
      || exists p: Clientbound :: EncodeFrame(s.zlib, c.compression, s.Render(p)) == Failure(e)
    case Failure(Closed) => Dry(s, c) && (|r| == 0 || IsLogin(s, r))
    case Failure(TimedOut) => Dry(s, c)
    case Failure(Io) => true
  }

  ghost predicate Explained(s: Server, c: Conn) {
    match c.phase
    case Leaving(_, outcome) => Explains(s, c, outcome)
    case Done(outcome) => Explains(s, c, outcome)
    case _ => true
  }

  lemma StepKeepsExplained(s: Server, c: Conn, players: Roster, input: Input)
    requires InPlace(s, c) && Explained(s, c)
    ensures Explained(s, Step(s, c, players, input).0)
  {
    hide InPlace, Explains, Transmit, Read, Admit;
    if Outgoing(s, c.phase).Some? {
      TransmitIsExplained(s, c, input);
    } else if Reading(c.phase) {
      ReadIsExplained(s, c, |players|, input);
    } else if c.phase.Leaving? {
      SameExplains(s, c, c.(phase := Done(c.phase.outcome)), c.phase.outcome);
    }
  }

  lemma SameExplains(s: Server, c: Conn, d: Conn, outcome: Outcome)
    requires Explains(s, c, outcome) && d.inbound == c.inbound && d.sent == c.sent
    requires d.compression == c.compression
    ensures Explains(s, d, outcome)
  {
    hide Intended, Named, Acknowledges, Chooses, Finishes, Pull, EncodeFrame, Refuses, AllAnswer;
    hide Server.Render;
  }

  lemma TransmitIsExplained(s: Server, c: Conn, input: Input)
    requires InPlace(s, c) && Outgoing(s, c.phase).Some?
    ensures Explained(s, Transmit(s, c, Outgoing(s, c.phase).value, input))
  {
    hide InPlace, Explained, Server.Render, EncodeFrame, AfterSent, AfterFailed;
    var p := Outgoing(s, c.phase).value;
    match EncodeFrame(s.zlib, c.compression, s.Render(p))
    case Failure(e) => FailureIsExplained(s, c, c.wire, Protocol(e));
    case Success(frame) =>
      if input.WriteFailed? && input.written < |frame| {
        FailureIsExplained(s, c, c.wire + frame[..input.written], Io);
      } else {
        SendingIsExplained(s, c, c.wire + frame);
      }
  }

  lemma FailureIsExplained(s: Server, c: Conn, wire: seq<byte>, e: ConnError)
    requires InPlace(s, c) && Outgoing(s, c.phase).Some? && (e.Io? || e.Protocol?)
    requires e.Protocol? ==>
      EncodeFrame(s.zlib, c.compression, s.Render(Outgoing(s, c.phase).value)) == Failure(e.error)
    ensures Explained(s, AfterFailed(c.(wire := wire), e))
  {
    hide Intended, Named, Acknowledges, AsksStatus, Pinged, Chooses, Finishes, Answers;
    hide EncodeFrame, Server.Render, Pull, Refuses;
  }

  lemma SendingIsExplained(s: Server, c: Conn, wire: seq<byte>)
    requires InPlace(s, c) && Outgoing(s, c.phase).Some?
    ensures Explained(s, AfterSent(s, c.(sent := c.sent + [Outgoing(s, c.phase).value], wire := wire)))
  {
    hide Intended, Named, Acknowledges, AsksStatus, Pinged, Chooses, Finishes, Answers, Pull, Refuses;
    match c.phase
    case SendingPong(_) => assert c.inbound.packets[|c.sent| + 1] == LastOf(c.inbound.packets);
    case RefusingRegistry(name) =>
      assert [Brand, KnownPacks] + [Disconnect(NoRegistryData)] == [Brand, KnownPacks, Disconnect(NoRegistryData)];
      assert c.sent + [Disconnect(NoRegistryData)] == FullScript(s, name);
    case _ =>
  }

  lemma ExitIsExplained(s: Server, c: Conn, outcome: Outcome)
    requires Explains(s, c, outcome)
    ensures Explained(s, Exit(c, outcome))
  {
    hide Explains;
    SameExplains(s, c, Exit(c, outcome), outcome);
  }

  lemma ReceiveIsExplained(s: Server, c: Conn, online: nat, packet: Packet, rest: seq<byte>)
    requires InPlace(s, c) && Reading(c.phase)
    ensures Explained(s, Receive(s, Took(c, packet, rest), online, packet))
  {
    hide Receive, Refusal, Explains, InPlace;
    var took := Took(c, packet, rest);
    var d := Receive(s, took, online, packet);
    ReceiveOnlyMoves(s, took, online, packet);
    if !Live(d.phase) {
      ReceiveEnds(s, took, online, packet);
      assert LastOf(d.inbound.packets) == packet;
      match OutcomeOf(d.phase)
      case Success(_) => FinishIsExplained(s, c, packet, d, OutcomeOf(d.phase));
      case Failure(e) => RefusalIsExplained(s, d, c.phase, packet, e);
    }
  }

  lemma RefusalIsExplained(s: Server, d: Conn, phase: Phase, packet: Packet, e: ConnError)
    requires |d.inbound.packets| > 0 && LastOf(d.inbound.packets) == packet
    requires Refusal(s, phase, packet) == Some(e) && NamesIts(packet, e)
    ensures Explains(s, d, Failure(e))
  {
    hide ReadIntention, ReadHello, ReadAcknowledged, ReadStatus, ReadConfiguration, SplitId;
    hide EncodeFrame, Server.Render, Pull, Intended, Named;
  }

  lemma FinishIsExplained(s: Server, c: Conn, packet: Packet, d: Conn, outcome: Outcome)
    requires outcome.Success? && InPlace(s, c) && c.phase.Configuring? && Finishes(s, packet)
    requires d.inbound.packets == c.inbound.packets + [packet]
    ensures Explains(s, d, outcome)
  {
    hide Intended, Named, Acknowledges, Finishes, EncodeFrame, Server.Render, Pull;
    var r := d.inbound.packets;
    assert LastOf(r) == packet;
    assert forall i :: 0 <= i < |c.inbound.packets| ==> r[i] == c.inbound.packets[i];
    assert Acknowledged(s, r, c.phase.name);
  }

  /** What a reader of packets can fail with. */
  lemma RefusalsNameTheirPacket(s: Server, packet: Packet)
    ensures ReadIntention(s, packet).Failure? ==> NamesIts(packet, ReadIntention(s, packet).error)
    ensures ReadHello(s, packet).Failure? ==> NamesIts(packet, ReadHello(s, packet).error)
    ensures ReadAcknowledged(s, packet).Failure? ==> NamesIts(packet, ReadAcknowledged(s, packet).error)
    ensures ReadStatus(s, packet).Failure? ==> NamesIts(packet, ReadStatus(s, packet).error)
    ensures ReadConfiguration(s, packet).Failure? ==> NamesIts(packet, ReadConfiguration(s, packet).error)
  {
    hide ReadVarint;
  }

  predicate NamesIts(packet: Packet, e: ConnError) {
    e.Protocol? || (e.UnexpectedPacket? && SplitId(packet).Success? && SplitId(packet).value.0 == e.id)
  }

  lemma ReadIsExplained(s: Server, c: Conn, online: nat, input: Input)
    requires InPlace(s, c) && Reading(c.phase)
    ensures Explained(s, Read(s, c, online, input))
  {
    hide Pull, Receive, InPlace, Explains, Exit;
    match Pull(s.zlib, c.compression, c.inbound.buffer)
    case Got(packet, rest) => ReceiveIsExplained(s, c, online, packet, rest);
    case Fail(e, rest) =>
      BreakIsExplained(s, c.(inbound := Session(rest, c.inbound.packets, Some(e))), Protocol(e));
    case More =>
      match input
      case Arrived(chunk) =>
        if |chunk| == 0 {
          HangUpIsExplained(s, c);
        }
      case ReadFailed => BreakIsExplained(s, c, Io);
      case TimeIsUp => BreakIsExplained(s, c, TimedOut);
      case WriteFailed(_) =>
      case Proceed =>
  }

  lemma BreakIsExplained(s: Server, c: Conn, e: ConnError)
    requires e.Io? || (e.Protocol? && c.inbound.error == Some(e.error)) || (e.TimedOut? && Dry(s, c))
      || (e.Closed? && Dry(s, c) && (|c.inbound.packets| == 0 || IsLogin(s, c.inbound.packets)))
    ensures Explained(s, Exit(c, Failure(e)))
  {
    hide Exit, Explained, Pull;
    ExitIsExplained(s, c, Failure(e));
  }

  lemma HangUpIsExplained(s: Server, c: Conn)
    requires InPlace(s, c) && Reading(c.phase) && Dry(s, c)
    ensures Explained(s, Exit(c, if c.phase.InStatus? then Success(()) else Failure(Closed)))
  {
    hide Intended, Named, AllAnswer, Pull;
  }

  // ------------------------------------------------------------------ what ended it

  /** What the reader of a phase finds wrong with a packet. */
  function Refusal(s: Server, phase: Phase, packet: Packet): Option<ConnError> {
    match phase
    case Handshaking => ErrorOf(ReadIntention(s, packet))
    case InStatus => ErrorOf(ReadStatus(s, packet))
    case AwaitingHello => ErrorOf(ReadHello(s, packet))
    case AwaitingAck(_) => ErrorOf(ReadAcknowledged(s, packet))
    case Configuring(_) => ErrorOf(ReadConfiguration(s, packet))
    case _ => None
  }

  function ErrorOf<T>(r: Result<T, ConnError>): Option<ConnError> {
    match r case Success(_) => None case Failure(e) => Some(e)
  }

  /** Whether taking this input in this state is reason to end so. */
  ghost predicate Causes(s: Server, c: Conn, input: Input, outcome: Outcome) {
    var pulled := Pull(s.zlib, c.compression, c.inbound.buffer);
    match outcome
    case Failure(TimedOut) => Waits(s, c) && input == TimeIsUp
    case Failure(Closed) => Waits(s, c) && input == Arrived([]) && !c.phase.InStatus?
    case Failure(Io) =>
      || (Waits(s, c) && input == ReadFailed)
      || (Outgoing(s, c.phase).Some? && input.WriteFailed?
          && var frame := EncodeFrame(s.zlib, c.compression, s.Render(Outgoing(s, c.phase).value));
             frame.Success? && input.written < |frame.value|)
    case Failure(Protocol(e)) =>
      || (Reading(c.phase) && pulled.Fail? && pulled.error == e)
      || (Reading(c.phase) && pulled.Got? && Refusal(s, c.phase, pulled.packet) == Some(Protocol(e)))
      || (Outgoing(s, c.phase).Some?
          && EncodeFrame(s.zlib, c.compression, s.Render(Outgoing(s, c.phase).value)) == Failure(e))
    case Failure(UnexpectedPacket(id)) =>
      Reading(c.phase) && pulled.Got? && Refusal(s, c.phase, pulled.packet) == Some(UnexpectedPacket(id))
    case Failure(UnsupportedVersion(got)) => c.phase == RefusingVersion(got)
    case Failure(Rejected(OnlineMode)) => c.phase == RefusingOnline
    case Failure(Rejected(Refused(why))) => c.phase == RefusingJoin(why)
    case Failure(Rejected(NoRegistryData)) => c.phase.RefusingRegistry?
    case Failure(Rejected(WrongVersion(_))) => false
    case Success(_) =>
      || (c.phase.InStatus? && Waits(s, c) && input == Arrived([]))
      || c.phase.SendingPong?
      || (c.phase.Configuring? && pulled.Got? && Finishes(s, pulled.packet))
  }

  function OutcomeOf(phase: Phase): Outcome
    requires !Live(phase)
  {
    match phase case Leaving(_, outcome) => outcome case Done(outcome) => outcome
  }

  lemma StepHasCause(s: Server, c: Conn, players: Roster, input: Input)
    requires Live(c.phase) && !Live(Step(s, c, players, input).0.phase)
    ensures Causes(s, c, input, OutcomeOf(Step(s, c, players, input).0.phase))
  {
    hide Read, Transmit, Causes, Admit;
    if Outgoing(s, c.phase).Some? {
      TransmitHasCause(s, c, input);
    } else if Reading(c.phase) {
      ReadHasCause(s, c, |players|, input);
    }
  }

  lemma TransmitHasCause(s: Server, c: Conn, input: Input)
    requires Outgoing(s, c.phase).Some?
    requires !Live(Transmit(s, c, Outgoing(s, c.phase).value, input).phase)
    ensures Causes(s, c, input, OutcomeOf(Transmit(s, c, Outgoing(s, c.phase).value, input).phase))
  {
    hide EncodeFrame, Server.Render, Pull, Refusal;
  }

  lemma ReadHasCause(s: Server, c: Conn, online: nat, input: Input)
    requires Reading(c.phase) && !Live(Read(s, c, online, input).phase)
    ensures Causes(s, c, input, OutcomeOf(Read(s, c, online, input).phase))
  {
    hide EncodeFrame, Server.Render, Pull, Receive;
    match Pull(s.zlib, c.compression, c.inbound.buffer)
    case Got(packet, rest) => ReceiveHasCause(s, c, online, input, packet, rest);
    case Fail(_, _) =>
    case More =>
  }

  lemma ReceiveHasCause(s: Server, c: Conn, online: nat, input: Input, packet: Packet, rest: seq<byte>)
    requires Reading(c.phase) && Pull(s.zlib, c.compression, c.inbound.buffer) == Got(packet, rest)
    requires !Live(Receive(s, Took(c, packet, rest), online, packet).phase)
    ensures Causes(s, c, input, OutcomeOf(Receive(s, Took(c, packet, rest), online, packet).phase))
  {
    hide EncodeFrame, Server.Render, Server.Compression, Pull, SplitId, Outgoing, Waits, Receive, Refusal, Finishes;
    ReceiveEnds(s, Took(c, packet, rest), online, packet);
  }

  /** A packet ends a connection when its reader refuses it, or when it finishes the configuration. */
  lemma ReceiveEnds(s: Server, c: Conn, online: nat, packet: Packet)
    requires Reading(c.phase) && !Live(Receive(s, c, online, packet).phase)
    ensures match OutcomeOf(Receive(s, c, online, packet).phase)
      case Success(_) => c.phase.Configuring? && Finishes(s, packet)
      case Failure(e) => Refusal(s, c.phase, packet) == Some(e) && NamesIts(packet, e)
  {
    hide ReadIntention, ReadHello, ReadAcknowledged, ReadStatus, ReadConfiguration, Finishes, SplitId;
    assert ReadConfiguration(s, packet) == Success(Finish) <==> Finishes(s, packet) by { ReadersAgree(s, packet); }
    RefusalsNameTheirPacket(s, packet);
  }
}
