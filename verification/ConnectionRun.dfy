/**
  The connection as the program runs it: one object, straight through its phases. It takes from the
  socket's script what the machine takes, finds the registry as the others have left it, and ends
  where the machine ends.
 */
module ConnectionRuns {
  import opened Wrappers
  import opened Bytes
  import opened Codecs
  import opened Players
  import opened Connections
  import opened Stages

  /** Bytes a script still has to deliver. */
  function Pending(script: seq<Input>): nat {
    if |script| == 0 then 0
    else (if script[0].Arrived? then |script[0].chunk| else 0) + Pending(script[1..])
  }

  /** A connection over a socket. What the surroundings will do is `script`, and what the other
      connections will make of the registry is `others`, both taken from the front. `outgoing` is
      everything written to the socket. */
  class Connection {
    const addr: nat
    const decoder: Decoder
    const encoder: Encoder
    const out: Buffer
    const outgoing: Buffer
    var script: seq<Input>
    var others: seq<Roster>

    ghost predicate Valid()
      reads this, decoder, encoder
    {
      && decoder.decryptor == None && encoder.encryptor == None
      && decoder.zlib == encoder.zlib && decoder.compression == encoder.compression
      && out != outgoing
    }

    /** The object is where the machine is. */
    ghost predicate Tracks(c: Conn)
      reads this, decoder, encoder, outgoing
    {
      && Valid() && addr == c.addr && outgoing.bytes == c.wire
      && decoder.buffer == c.inbound.buffer && decoder.compression == c.compression
    }

    /** The machine, the registry, and what is still to happen. */
    ghost function Stage(c: Conn, players: Roster): Scene
      reads this
    {
      Scene(c, players, script, others)
    }

    /** Bytes not yet decoded, received or not. */
    ghost function Left(): nat
      reads this, decoder
    {
      |decoder.buffer| + Pending(script)
    }

    constructor (zlib: Zlib, addr: nat, script: seq<Input>, others: seq<Roster>)
      ensures Tracks(Accepted(addr)) && decoder.zlib == zlib
      ensures this.addr == addr && this.script == script && this.others == others
      ensures fresh(decoder) && fresh(encoder) && fresh(out) && fresh(outgoing)
    {
      this.addr := addr;
      this.script := script;
      this.others := others;
      decoder := new Decoder(zlib);
      encoder := new Encoder(zlib);
      out := new Buffer();
      outgoing := new Buffer();
    }

    method EnableCompression(threshold: nat)
      requires Valid()
      modifies decoder, encoder
      ensures Valid() && decoder.compression == Some(threshold) && decoder.buffer == old(decoder.buffer)
    {
      encoder.EnableCompression(threshold);
      decoder.EnableCompression(threshold);
    }

    /** Frames and writes the packet a phase sends. This is the machine's one step: a failure that is
        next in the script is taken and cuts the frame, and nothing else is. */
    method Send(s: Server, p: Clientbound, ghost c: Conn, ghost players: Roster)
      returns (r: Outcome, ghost after: Conn)
      requires Tracks(c) && s.zlib == decoder.zlib && Outgoing(s, c.phase) == Some(p)
      modifies this`script, out, outgoing, encoder`scratch
      ensures Valid() && outgoing.bytes == after.wire && Left() == old(Left())
      ensures Stage(after, players) == Advance(s, old(Stage(c, players)))
      ensures r.Success? ==> after == AfterSent(s, c.(sent := c.sent + [p], wire := after.wire))
      ensures r.Failure? ==> after == AfterFailed(c.(wire := after.wire), r.error)
    {
      hide Step, EncodeFrame, AfterSent, AfterFailed, Server.Render, Pull, Visits;
      out.bytes := [];
      SendStep(s, Stage(c, players), p);
      ghost var input := Next(s, Stage(c, players));
      after := Transmit(s, c, p, input);
      SentAlike(s, c, c.sent + [p], c.wire);
      var written := encoder.Encode(s.Render(p), out);
      if written.Failure? {
        assert c.(wire := c.wire) == c;
        FailedAlike(c, c.wire, Protocol(written.error));
        return Failure(Protocol(written.error)), after;
      }
      ghost var frame := EncodeFrame(s.zlib, c.compression, s.Render(p)).value;
      assert out.bytes == [] + frame == frame;
      if |script| > 0 && script[0].WriteFailed? {
        var k := script[0].written;
        script := script[1..];
        if k < |out.bytes| {
          outgoing.bytes := outgoing.bytes + out.bytes[..k];
          FailedAlike(c, outgoing.bytes, Io);
          return Failure(Io), after;
        }
      }
      outgoing.bytes := outgoing.bytes + out.bytes;
      SentAlike(s, c, c.sent + [p], outgoing.bytes);
      return Success(()), after;
    }

    /** Reads until a packet is complete, taking the script item by item. On success the machine is
        `at`, with the packet complete and not yet taken; on failure it has gone on to exit. */
    method ReadPacket(s: Server, ghost c: Conn, ghost players: Roster)
      returns (r: Result<Packet, ConnError>, ghost at: Conn)
      requires Tracks(c) && s.zlib == decoder.zlib && Reading(c.phase)
      modifies this`script, decoder`buffer
      ensures Valid() && decoder.compression == c.compression && outgoing.bytes == at.wire
      ensures at == c.(inbound := at.inbound, arrived := at.arrived, phase := at.phase)
      ensures Leads(s, old(Stage(c, players)), Stage(at, players))
      ensures r.Success? ==> at.phase == c.phase && Left() < old(Left())
      ensures r.Success? ==> Pull(s.zlib, at.compression, at.inbound.buffer) == Got(r.value, decoder.buffer)
      ensures r.Failure? ==> at.phase == Exit(c, AtExit(c.phase, r.error)).phase
    {
      hide Pull, Receive, Exit, Leads, Advance;
      at := c;
      StaysPut(s, Stage(c, players));
      while true
        invariant Tracks(at) && at == c.(inbound := at.inbound, arrived := at.arrived)
        invariant Leads(s, old(Stage(c, players)), Stage(at, players)) && Left() <= old(Left())
        decreases |script|
      {
        ghost var before := Stage(at, players);
        AndOn(s, old(Stage(c, players)), before);
        ExitAlike(c, at, AtExit(c.phase, Closed));
        ExitAlike(c, at, Failure(Io));
        ExitAlike(c, at, Failure(TimedOut));
        var decoded := decoder.Decode();
        match decoded {
          case Failure(e) =>
            FailStep(s, before, e, decoder.buffer);
            at := at.(inbound := Session(decoder.buffer, at.inbound.packets, Some(e)));
            ExitAlike(c, at, Failure(Protocol(e)));
            at := Exit(at, Failure(Protocol(e)));
            return Failure(Protocol(e)), at;
          case Success(Some(packet)) => return Success(packet), at;
          case Success(None) =>
        }
        WaitStep(s, before);
        if |script| == 0 {
          at := Exit(at, Failure(TimedOut));
          return Failure(TimedOut), at;
        }
        var input := script[0];
        script := script[1..];
        match input {
          case Arrived(chunk) =>
            if |chunk| == 0 {
              at := Exit(at, AtExit(c.phase, Closed));
              return Failure(Closed), at;
            }
            var read := new Buffer();
            read.bytes := chunk;
            decoder.Feed(read);
            at := at.(inbound := at.inbound.(buffer := at.inbound.buffer + chunk), arrived := at.arrived + chunk);
          case ReadFailed =>
            at := Exit(at, Failure(Io));
            return Failure(Io), at;
          case TimeIsUp =>
            at := Exit(at, Failure(TimedOut));
            return Failure(TimedOut), at;
          case WriteFailed(_) =>
          case Proceed =>
        }
      }
    }

    /** Before a visit the other connections may have changed the registry in any way. */
    method Meanwhile(registry: PlayerRegistry)
      modifies this`others, registry
      ensures old(|others|) > 0 ==> registry.players == old(others[0]) && others == old(others[1..])
      ensures old(|others|) == 0 ==> registry.players == old(registry.players) && others == old(others)
    {
      if |others| > 0 {
        registry.players := others[0];
        others := others[1..];
      }
    }
  }

  // ------------------------------------------------------------------ single steps

  /** A client that hangs up during the status exchange is no error. */
  function AtExit(phase: Phase, e: ConnError): Outcome {
    if phase.InStatus? && e.Closed? then Success(()) else Failure(e)
  }

  lemma SendStep(s: Server, a: Scene, p: Clientbound)
    requires Outgoing(s, a.conn.phase) == Some(p)
    ensures var framed := EncodeFrame(s.zlib, a.conn.compression, s.Render(p)).Success?;
      var taken := framed && |a.script| > 0 && a.script[0].WriteFailed?;
      && Next(s, a) == (if taken then a.script[0] else Proceed)
      && Advance(s, a) == a.(conn := Transmit(s, a.conn, p, Next(s, a)),
                             script := if taken then a.script[1..] else a.script)
  {
    hide Transmit, EncodeFrame, Server.Render, Pull;
  }

  /** What follows a send takes what was written as it is. */
  lemma SentAlike(s: Server, c: Conn, sent: seq<Clientbound>, wire: seq<byte>)
    ensures AfterSent(s, c.(sent := sent, wire := wire)).wire == wire
  {
  }

  lemma FailedAlike(c: Conn, wire: seq<byte>, e: ConnError)
    ensures AfterFailed(c.(wire := wire), e).wire == wire
  {
  }

  lemma ExitAlike(c: Conn, d: Conn, outcome: Outcome)
    requires d.phase == c.phase
    ensures Exit(d, outcome) == d.(phase := Exit(c, outcome).phase)
  {
  }

  /** A read that has to wait takes one item of the script, or runs out of time for want of one. */
  lemma WaitStep(s: Server, a: Scene)
    requires Waits(s, a.conn)
    ensures var c := a.conn;
      Advance(s, a) == if |a.script| == 0 then a.(conn := Exit(c, Failure(TimedOut)))
        else a.(script := a.script[1..], conn := match a.script[0]
          case Arrived(chunk) =>
            if |chunk| == 0 then Exit(c, AtExit(c.phase, Closed))
            else c.(inbound := c.inbound.(buffer := c.inbound.buffer + chunk), arrived := c.arrived + chunk)
          case ReadFailed => Exit(c, Failure(Io))
          case TimeIsUp => Exit(c, Failure(TimedOut))
          case _ => c)
  {
    hide Pull, Exit, Receive;
  }

  lemma FailStep(s: Server, a: Scene, e: ProtocolError, rest: seq<byte>)
    requires Reading(a.conn.phase) && Pull(s.zlib, a.conn.compression, a.conn.inbound.buffer) == Fail(e, rest)
    ensures Advance(s, a) == a.(conn :=
      Exit(a.conn.(inbound := Session(rest, a.conn.inbound.packets, Some(e))), Failure(Protocol(e))))
  {
    hide Pull, Exit, Receive, Transmit, Admit, EncodeFrame, Server.Render, Server.Compression, Server.Cap;
  }

  /** The next step takes the packet, and looks at the registry only for a status request. */
  lemma PacketStep(s: Server, start: Scene, a: Scene, packet: Packet, rest: seq<byte>)
    requires Leads(s, start, a) && Reading(a.conn.phase)
    requires Pull(s.zlib, a.conn.compression, a.conn.inbound.buffer) == Got(packet, rest)
    ensures var polls := a.conn.phase.InStatus? && ReadStatus(s, packet) == Success(Poll);
      var found := if polls && |a.others| > 0 then a.others[0] else a.players;
      Leads(s, start, Scene(
        Receive(s, Took(a.conn, packet, rest), |found|, packet), found, a.script,
        if polls && |a.others| > 0 then a.others[1..] else a.others))
  {
    hide Pull, Receive, Leads, ReadStatus, EncodeFrame, Server.Render, Transmit, Admit;
    AndOn(s, start, a);
  }

  /** The two visits of a player. */
  lemma JoinStep(s: Server, start: Scene, a: Scene, found: Roster, left: seq<Roster>)
    requires Leads(s, start, a) && a.conn.phase.Joining?
    requires found == Found(s, a) && left == if |a.others| > 0 then a.others[1..] else a.others
    ensures var name := a.conn.phase.name;
      Leads(s, start, match Admit(found, InfoOf(s, a.conn, name), s.Cap())
        case Success(after) => Scene(a.conn.(phase := SendingBrand(name)), after, a.script, left)
        case Failure(why) => Scene(a.conn.(phase := RefusingJoin(why)), found, a.script, left))
  {
    hide Leads, Admit, Pull, Read, Transmit, EncodeFrame, Server.Render, Server.Compression, Server.Cap;
    AndOn(s, start, a);
  }

  lemma LeaveStep(s: Server, start: Scene, a: Scene, found: Roster, left: seq<Roster>)
    requires Leads(s, start, a) && a.conn.phase.Leaving?
    requires found == Found(s, a) && left == if |a.others| > 0 then a.others[1..] else a.others
    ensures Leads(s, start, Scene(
      a.conn.(phase := Done(a.conn.phase.outcome)), Without(found, s.offlineUuid(a.conn.phase.name)), a.script, left))
  {
    hide Leads, Without, Admit, Pull, Read, Transmit, EncodeFrame, Server.Render, Server.Compression, Server.Cap;
    AndOn(s, start, a);
  }

  // ------------------------------------------------------------------ the phases

  method StatusPhase(s: Server, conn: Connection, registry: PlayerRegistry, ghost c: Conn)
    returns (r: Outcome, ghost end: Conn)
    requires conn.Tracks(c) && s.zlib == conn.decoder.zlib && c.phase == InStatus
    modifies registry, conn`script, conn`others, conn.decoder`buffer, conn.out, conn.outgoing, conn.encoder`scratch
    ensures end.phase == Done(r) && conn.outgoing.bytes == end.wire
    ensures Leads(s, old(conn.Stage(c, registry.players)), conn.Stage(end, registry.players))
  {
    hide Leads, Advance, ReadStatus, Transmit, Read, Pull;
    ghost var start := conn.Stage(c, registry.players);
    end := c;
    StaysPut(s, start);
    while true
      invariant conn.Tracks(end) && s.zlib == conn.decoder.zlib && end.phase == InStatus
      invariant Leads(s, start, conn.Stage(end, registry.players))
      decreases conn.Left()
    {
      ghost var before, at := conn.Stage(end, registry.players), end;
      var packet;
      packet, at := conn.ReadPacket(s, end, registry.players);
      Then(s, start, before, conn.Stage(at, registry.players));
      end := at;
      if packet.Failure? {
        return if packet.error.Closed? then Success(()) else Failure(packet.error), end;
      }
      PacketStep(s, start, conn.Stage(at, registry.players), packet.value, conn.decoder.buffer);
      match ReadStatus(s, packet.value) {
        case Failure(e) =>
          end := Receive(s, Took(at, packet.value, conn.decoder.buffer), |registry.players|, packet.value);
          return Failure(e), end;
        case Success(Poll) =>
          conn.Meanwhile(registry);
          var online := registry.Count();
          end := Took(at, packet.value, conn.decoder.buffer).(phase := SendingStatus(online));
          AndOn(s, start, conn.Stage(end, registry.players));
          var sent;
          sent, end := conn.Send(s, StatusResponse(online), end, registry.players);
          if sent.Failure? { return sent, end; }
        case Success(Ping(payload)) =>
          end := Took(at, packet.value, conn.decoder.buffer).(phase := SendingPong(payload));
          AndOn(s, start, conn.Stage(end, registry.players));
          var sent;
          sent, end := conn.Send(s, PongResponse(payload), end, registry.players);
          if sent.Failure? { return sent, end; }
          return Success(()), end;
      }
    }
  }

  /** What the server says first in the configuration phase. */
  method Introduce(s: Server, conn: Connection, name: string, ghost c: Conn, ghost players: Roster)
    returns (r: Outcome, ghost end: Conn)
    requires conn.Tracks(c) && s.zlib == conn.decoder.zlib && c.phase == SendingBrand(name)
    modifies conn`script, conn.out, conn.outgoing, conn.encoder`scratch
    ensures end.phase == (if r.Failure? then Leaving(name, r) else Configuring(name))
    ensures conn.outgoing.bytes == end.wire && end.addr == c.addr && (r.Success? ==> conn.Tracks(end))
    ensures Leads(s, old(conn.Stage(c, players)), conn.Stage(end, players))
  {
    hide Leads, Advance;
    ghost var start := conn.Stage(c, players);
    OneStep(s, start);
    r, end := conn.Send(s, Brand, c, players);
    if r.Failure? { return; }
    AndOn(s, start, conn.Stage(end, players));
    r, end := conn.Send(s, KnownPacks, end, players);
  }

  /** Returns with the player still registered: removing them is the caller's next act. */
  method ConfigurationPhase(s: Server, conn: Connection, name: string, ghost c: Conn, ghost players: Roster)
    returns (r: Outcome, ghost end: Conn)
    requires conn.Tracks(c) && s.zlib == conn.decoder.zlib && c.phase == SendingBrand(name)
    modifies conn`script, conn.decoder`buffer, conn.out, conn.outgoing, conn.encoder`scratch
    ensures end.phase == Leaving(name, r) && conn.outgoing.bytes == end.wire && end.addr == c.addr
    ensures Leads(s, old(conn.Stage(c, players)), conn.Stage(end, players))
  {
    hide Leads, Advance, ReadConfiguration, ReadIntention, ReadHello, ReadStatus, ReadAcknowledged;
    hide Transmit, Read, Server.Render, Server.Compression, Server.Cap, Pending, Pull;
    ghost var start := conn.Stage(c, players);
    r, end := Introduce(s, conn, name, c, players);
    if r.Failure? { return; }
    while true
      invariant conn.Tracks(end) && s.zlib == conn.decoder.zlib && end.phase == Configuring(name) && end.addr == c.addr
      invariant Leads(s, start, conn.Stage(end, players))
      decreases conn.Left()
    {
      ghost var before, at := conn.Stage(end, players), end;
      var packet;
      packet, at := conn.ReadPacket(s, end, players);
      Then(s, start, before, conn.Stage(at, players));
      end := at;
      if packet.Failure? { return Failure(packet.error), end; }
      PacketStep(s, start, conn.Stage(at, players), packet.value, conn.decoder.buffer);
      end := Receive(s, Took(at, packet.value, conn.decoder.buffer), |players|, packet.value);
      match ReadConfiguration(s, packet.value) {
        case Failure(e) => return Failure(e), end;
        case Success(CarryOn) =>
        case Success(PacksChosen) =>
          AndOn(s, start, conn.Stage(end, players));
          r, end := conn.Send(s, Disconnect(NoRegistryData), end, players);
          if r.Failure? { return; }
          return Failure(Rejected(NoRegistryData)), end;
        case Success(Finish) => return Success(()), end;
      }
    }
  }

  /** Up to LoginFinished: the greeting, the refusal of online mode, and the compression switch. */
  method Greet(s: Server, conn: Connection, ghost c: Conn, ghost players: Roster)
    returns (r: Result<string, ConnError>, ghost end: Conn)
    requires conn.Tracks(c) && s.zlib == conn.decoder.zlib && c.phase == AwaitingHello
    modifies conn`script, conn.decoder, conn.out, conn.outgoing, conn.encoder
    ensures r.Failure? ==> end.phase == Done(Failure(r.error)) && conn.outgoing.bytes == end.wire
    ensures r.Success? ==> end.phase == AwaitingAck(r.value) && conn.Tracks(end)
    ensures Leads(s, old(conn.Stage(c, players)), conn.Stage(end, players))
  {
    hide Leads, Advance, ReadHello, Transmit, Read, Pull;
    ghost var start, at := conn.Stage(c, players), c;
    var packet;
    packet, at := conn.ReadPacket(s, c, players);
    if packet.Failure? { return Failure(packet.error), at; }
    PacketStep(s, start, conn.Stage(at, players), packet.value, conn.decoder.buffer);
    end := Receive(s, Took(at, packet.value, conn.decoder.buffer), |players|, packet.value);
    AndOn(s, start, conn.Stage(end, players));
    var hello := ReadHello(s, packet.value);
    if hello.Failure? { return Failure(hello.error), end; }
    var name := hello.value;
    var sent;
    if s.onlineMode {
      sent, end := conn.Send(s, LoginDisconnect(OnlineMode), end, players);
      return Failure(if sent.Failure? then sent.error else Rejected(OnlineMode)), end;
    }
    if s.Compression().Some? {
      sent, end := conn.Send(s, SetCompression(s.Compression().value), end, players);
      if sent.Failure? { return Failure(sent.error), end; }
      conn.EnableCompression(s.Compression().value);
      AndOn(s, start, conn.Stage(end, players));
    }
    sent, end := conn.Send(s, LoginFinished(s.offlineUuid(name), name, s.flag), end, players);
    if sent.Failure? { return Failure(sent.error), end; }
    return Success(name), end;
  }

  /** From the greeting to the end; whoever was admitted has been removed on return. */
  method LoginPhase(s: Server, conn: Connection, registry: PlayerRegistry, ghost c: Conn)
    returns (r: Outcome, ghost end: Conn)
    requires conn.Tracks(c) && s.zlib == conn.decoder.zlib && c.phase == AwaitingHello
    modifies registry, conn`script, conn`others, conn.decoder, conn.out, conn.outgoing, conn.encoder
    ensures end.phase == Done(r) && conn.outgoing.bytes == end.wire
    ensures Leads(s, old(conn.Stage(c, registry.players)), conn.Stage(end, registry.players))
  {
    hide Leads, Advance, ReadAcknowledged, Transmit, Read, Admit, Pull;
    ghost var start := conn.Stage(c, registry.players);
    var greeted;
    greeted, end := Greet(s, conn, c, registry.players);
    if greeted.Failure? { return Failure(greeted.error), end; }
    var name := greeted.value;
    ghost var before, at := conn.Stage(end, registry.players), end;
    var packet;
    packet, at := conn.ReadPacket(s, end, registry.players);
    Then(s, start, before, conn.Stage(at, registry.players));
    if packet.Failure? { return Failure(packet.error), at; }
    PacketStep(s, start, conn.Stage(at, registry.players), packet.value, conn.decoder.buffer);
    end := Receive(s, Took(at, packet.value, conn.decoder.buffer), |registry.players|, packet.value);
    var acknowledged := ReadAcknowledged(s, packet.value);
    if acknowledged.Failure? { return Failure(acknowledged.error), end; }
    r, end := Admission(s, conn, registry, name, start, end);
  }

  /** From admission to removal. */
  method Admission(
    s: Server, conn: Connection, registry: PlayerRegistry, name: string, ghost start: Scene, ghost c: Conn)
    returns (r: Outcome, ghost end: Conn)
    requires conn.Tracks(c) && s.zlib == conn.decoder.zlib && c.phase == Joining(name)
    requires Leads(s, start, conn.Stage(c, registry.players))
    modifies registry, conn`script, conn`others, conn.decoder, conn.out, conn.outgoing, conn.encoder
    ensures end.phase == Done(r) && conn.outgoing.bytes == end.wire
    ensures Leads(s, start, conn.Stage(end, registry.players))
  {
    hide Leads, Advance, Transmit, Read, Admit, Without, Pull;
    ghost var before := conn.Stage(c, registry.players);
    conn.Meanwhile(registry);
    JoinStep(s, start, before, registry.players, conn.others);
    var joined := registry.TryInsert(PlayerInfo(s.offlineUuid(name), name, conn.addr), s.Cap());
    if joined.Failure? {
      end := c.(phase := RefusingJoin(joined.error));
      AndOn(s, start, conn.Stage(end, registry.players));
      r, end := conn.Send(s, Disconnect(Refused(joined.error)), end, registry.players);
      return if r.Failure? then r else Failure(Rejected(Refused(joined.error))), end;
    }
    end := c.(phase := SendingBrand(name));
    before := conn.Stage(end, registry.players);
    r, end := ConfigurationPhase(s, conn, name, end, registry.players);
    Then(s, start, before, conn.Stage(end, registry.players));
    before := conn.Stage(end, registry.players);
    conn.Meanwhile(registry);
    LeaveStep(s, start, before, registry.players, conn.others);
    var gone := registry.Remove(s.offlineUuid(name));
    end := end.(phase := Done(r));
  }

  /** A whole connection: it ends where the machine ends, given the same
      socket and the same company, with the same bytes written and the same registry left behind;
      what it received is what the part of the script it took delivers. */
  method RunConnection(s: Server, conn: Connection, registry: PlayerRegistry)
    returns (r: Outcome, ghost end: Conn)
    requires conn.Tracks(Accepted(conn.addr)) && s.zlib == conn.decoder.zlib
    modifies registry, conn`script, conn`others, conn.decoder, conn.out, conn.outgoing, conn.encoder
    ensures end.phase == Done(r) && conn.outgoing.bytes == end.wire
    ensures Leads(s, old(conn.Stage(Accepted(conn.addr), registry.players)), conn.Stage(end, registry.players))
    ensures |conn.script| <= |old(conn.script)|
    ensures Taken(old(conn.script), conn.script) + conn.script == old(conn.script)
    ensures end.arrived == Delivered(Taken(old(conn.script), conn.script))
  {
    hide Leads, Advance, Delivered;
    ghost var start := conn.Stage(Accepted(conn.addr), registry.players);
    r, end := Phases(s, conn, registry);
    LeadsArrives(s, start, conn.Stage(end, registry.players));
    assert [] + end.arrived == end.arrived;
    assert start.script[..|start.script| - |conn.script|] + conn.script == start.script;
  }

  method Phases(s: Server, conn: Connection, registry: PlayerRegistry) returns (r: Outcome, ghost end: Conn)
    requires conn.Tracks(Accepted(conn.addr)) && s.zlib == conn.decoder.zlib
    modifies registry, conn`script, conn`others, conn.decoder, conn.out, conn.outgoing, conn.encoder
    ensures end.phase == Done(r) && conn.outgoing.bytes == end.wire
    ensures Leads(s, old(conn.Stage(Accepted(conn.addr), registry.players)), conn.Stage(end, registry.players))
  {
    hide Leads, Advance, ReadIntention, Transmit, Read, Pull;
    ghost var c := Accepted(conn.addr);
    ghost var start, at := conn.Stage(c, registry.players), c;
    var packet;
    packet, at := conn.ReadPacket(s, c, registry.players);
    if packet.Failure? { return Failure(packet.error), at; }
    PacketStep(s, start, conn.Stage(at, registry.players), packet.value, conn.decoder.buffer);
    end := Receive(s, Took(at, packet.value, conn.decoder.buffer), |registry.players|, packet.value);
    var read := ReadIntention(s, packet.value);
    if read.Failure? { return Failure(read.error), end; }
    var intention := read.value;
    ghost var before := conn.Stage(end, registry.players);
    if intention.nextState.Status? {
      r, end := StatusPhase(s, conn, registry, end);
    } else if intention.protocolVersion != PROTOCOL_VERSION {
      var got := intention.protocolVersion;
      OneStep(s, before);
      var sent;
      sent, end := conn.Send(s, LoginDisconnect(WrongVersion(got)), end, registry.players);
      r := Failure(UnsupportedVersion(got));
    } else {
      r, end := LoginPhase(s, conn, registry, end);
    }
    Then(s, start, before, conn.Stage(end, registry.players));
  }
}
