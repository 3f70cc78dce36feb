/** Any number of connections sharing one registry, in any interleaving of their steps. */
module Lobbies {
  import opened Wrappers
  import opened Bytes
  import opened Codecs
  import opened Players
  import opened Connections
  import opened LoginFlows
  import opened Stages

  datatype World = World(conns: seq<Conn>, players: Roster)

  /** One connection takes one step. */
  datatype Move = Move(who: nat, input: Input)

  function Opening(addrs: seq<nat>): World {
    World(seq(|addrs|, i requires 0 <= i < |addrs| => Accepted(addrs[i])), map[])
  }

  function Act(s: Server, w: World, m: Move): World {
    if m.who >= |w.conns| then w
    else
      var (c, players) := Step(s, w.conns[m.who], w.players, m.input);
      World(w.conns[m.who := c], players)
  }

  function Run(s: Server, addrs: seq<nat>, moves: seq<Move>): World {
    if |moves| == 0 then Opening(addrs)
    else Act(s, Run(s, addrs, moves[..|moves| - 1]), moves[|moves| - 1])
  }

  // ------------------------------------------------------------------ who is in the registry

  /** The name a connection holds in the registry: from admission until it has left again. */
  function Seat(phase: Phase): Option<string> {
    match phase
    case SendingBrand(name) => Some(name)
    case SendingPacks(name) => Some(name)
    case Configuring(name) => Some(name)
    case RefusingRegistry(name) => Some(name)
    case Leaving(name, _) => Some(name)
    case _ => None
  }

  /** Connection `i` is seated under the identity `u`. */
  ghost predicate Holds(s: Server, w: World, i: int, u: Uuid) {
    0 <= i < |w.conns| && Seat(w.conns[i].phase).Some? && s.offlineUuid(Seat(w.conns[i].phase).value) == u
  }

  ghost predicate Owned(s: Server, w: World, u: Uuid) {
    exists i: int :: Holds(s, w, i, u)
  }

  /** A seated connection has an entry, and it is its own. */
  ghost predicate HasEntry(s: Server, w: World, i: int, u: Uuid)
    requires Holds(s, w, i, u)
  {
    u in w.players && w.players[u] == InfoOf(s, w.conns[i], Seat(w.conns[i].phase).value)
  }

  /** The registry is the seated connections: one entry each, no entry without one, none alike. */
  ghost predicate Seated(s: Server, w: World) {
    && |w.players| <= s.Cap()
    && (forall i: int, u: Uuid :: Holds(s, w, i, u) ==> HasEntry(s, w, i, u))
    && (forall u: Uuid :: u in w.players ==> Owned(s, w, u))
    && (forall i: int, j: int, u: Uuid :: Holds(s, w, i, u) && Holds(s, w, j, u) ==> i == j)
  }

  /** Away from its two visits to the registry, a connection neither changes it nor its own seat. */
  lemma StepKeepsSeat(s: Server, c: Conn, players: Roster, input: Input)
    requires !c.phase.Joining? && !c.phase.Leaving?
    ensures var (d, after) := Step(s, c, players, input);
      after == players && d.addr == c.addr && Seat(d.phase) == Seat(c.phase)
  {
    hide Read, Transmit, Admit, Server.Compression;
    if Outgoing(s, c.phase).Some? {
      TransmitKeepsSeat(s, c, input);
    } else if Reading(c.phase) {
      ReadKeepsSeat(s, c, |players|, input);
    }
  }

  lemma TransmitKeepsSeat(s: Server, c: Conn, input: Input)
    requires Outgoing(s, c.phase).Some?
    ensures var d := Transmit(s, c, Outgoing(s, c.phase).value, input);
      d.addr == c.addr && Seat(d.phase) == Seat(c.phase)
  {
    hide EncodeFrame, Server.Render, Server.Compression;
  }

  lemma ReadKeepsSeat(s: Server, c: Conn, online: nat, input: Input)
    requires Reading(c.phase)
    ensures var d := Read(s, c, online, input);
      d.addr == c.addr && Seat(d.phase) == Seat(c.phase)
  {
    hide Pull, ReadIntention, ReadHello, ReadAcknowledged, ReadStatus, ReadConfiguration;
  }

  /** The other connections and their seats are as they were. */
  lemma OthersKeepSeats(s: Server, w: World, m: Move)
    requires m.who < |w.conns|
    ensures var after := Act(s, w, m);
      |after.conns| == |w.conns|
      && (forall i: int :: 0 <= i < |w.conns| && i != m.who ==> after.conns[i] == w.conns[i])
      && (forall i: int, u: Uuid :: i != m.who ==> (Holds(s, after, i, u) <==> Holds(s, w, i, u)))
  {
    hide Step;
  }

  lemma SeatedAt(s: Server, w: World, i: nat, name: string)
    requires i < |w.conns| && Seat(w.conns[i].phase) == Some(name)
    ensures forall u: Uuid :: Holds(s, w, i, u) <==> u == s.offlineUuid(name)
  {
  }

  lemma UnseatedAt(s: Server, w: World, i: nat)
    requires i < |w.conns| && Seat(w.conns[i].phase) == None
    ensures forall u: Uuid :: !Holds(s, w, i, u)
  {
  }

  lemma OwnedBy(s: Server, w: World, i: int, u: Uuid)
    requires Holds(s, w, i, u)
    ensures Owned(s, w, u)
  {
  }

  /** A player stays owned when the owner keeps the seat. */
  lemma StaysOwned(s: Server, w: World, after: World, who: nat, u: Uuid)
    requires Owned(s, w, u) && (Holds(s, w, who, u) ==> Holds(s, after, who, u))
    requires forall i: int :: i != who ==> (Holds(s, after, i, u) <==> Holds(s, w, i, u))
    ensures Owned(s, after, u)
  {
    hide Holds;
    var i: int :| Holds(s, w, i, u);
    assert Holds(s, after, i, u);
  }

  lemma JoiningKeepsSeated(s: Server, w: World, m: Move, name: string)
    requires s.Lawful() && Seated(s, w)
    requires m.who < |w.conns| && w.conns[m.who].phase == Joining(name)
    ensures Seated(s, Act(s, w, m))
    ensures var u, after := s.offlineUuid(name), Act(s, w, m);
      if after.conns[m.who].phase.SendingBrand?
      then u !in w.players && |w.players| < s.Cap() && after.players == w.players[u := InfoOf(s, w.conns[m.who], name)]
      else (u in w.players || |w.players| >= s.Cap()) && after.players == w.players
  {
    hide Act, Seated, Server.Lawful;
    NameTakenIsSeated(s, w, name);
    JoiningDecides(s, w, m, name);
    if Admit(w.players, InfoOf(s, w.conns[m.who], name), s.Cap()).Success? {
      AdmissionKeepsSeated(s, w, m, name);
    } else {
      RefusalKeepsSeated(s, w, m);
    }
  }

  lemma AdmissionKeepsSeated(s: Server, w: World, m: Move, name: string)
    requires Seated(s, w) && m.who < |w.conns| && Seat(w.conns[m.who].phase) == None
    requires s.offlineUuid(name) !in w.players && |w.players| < s.Cap()
    requires var after := Act(s, w, m);
      after.conns[m.who] == w.conns[m.who].(phase := SendingBrand(name))
      && after.players == w.players[s.offlineUuid(name) := InfoOf(s, w.conns[m.who], name)]
    ensures Seated(s, Act(s, w, m))
  {
    hide Act, Holds, Owned;
    var u, after := s.offlineUuid(name), Act(s, w, m);
    OthersKeepSeats(s, w, m);
    UnseatedAt(s, w, m.who);
    SeatedAt(s, after, m.who, name);
    assert after.players.Keys == w.players.Keys + {u};
    forall i: int, v: Uuid | Holds(s, after, i, v) ensures HasEntry(s, after, i, v) {
      if i != m.who { EntryStays(s, w, after, i, v); }
    }
    forall v: Uuid | v in after.players ensures Owned(s, after, v) {
      if v == u { OwnedBy(s, after, m.who, u); } else { StaysOwned(s, w, after, m.who, v); }
    }
    forall i: int, j: int, v: Uuid | Holds(s, after, i, v) && Holds(s, after, j, v) ensures i == j {
      if i != m.who { assert HasEntry(s, w, i, v); }
      if j != m.who { assert HasEntry(s, w, j, v); }
    }
  }

  lemma EntryStays(s: Server, w: World, after: World, i: int, u: Uuid)
    requires Holds(s, w, i, u) && HasEntry(s, w, i, u)
    requires |after.conns| == |w.conns| && (0 <= i < |w.conns| ==> after.conns[i] == w.conns[i])
    requires u in after.players && after.players[u] == w.players[u]
    ensures Holds(s, after, i, u) && HasEntry(s, after, i, u)
  {
  }

  /** Nothing changes but the phase of an unseated connection. */
  lemma RefusalKeepsSeated(s: Server, w: World, m: Move)
    requires Seated(s, w) && m.who < |w.conns|
    requires var after := Act(s, w, m);
      after.players == w.players && after.conns[m.who].addr == w.conns[m.who].addr
      && Seat(after.conns[m.who].phase) == Seat(w.conns[m.who].phase)
    ensures Seated(s, Act(s, w, m))
  {
    hide Act, Owned, Seat;
    var after := Act(s, w, m);
    OthersKeepSeats(s, w, m);
    assert forall i: int, v: Uuid :: Holds(s, after, i, v) <==> Holds(s, w, i, v);
    forall i: int, v: Uuid | Holds(s, after, i, v) ensures HasEntry(s, after, i, v) {
      assert HasEntry(s, w, i, v);
    }
    forall v: Uuid | v in after.players ensures Owned(s, after, v) {
      StaysOwned(s, w, after, m.who, v);
    }
  }

  /** Names stand for identities: a name is taken exactly when its uuid is registered. */
  lemma NameTakenIsSeated(s: Server, w: World, name: string)
    requires s.Lawful() && Seated(s, w)
    ensures HasPlayer(w.players, name) <==> s.offlineUuid(name) in w.players
    ensures DistinctNames(w.players)
  {
    forall u | u in w.players ensures s.offlineUuid(w.players[u].name) == u {
      EntryIsUnderItsUuid(s, w, u);
    }
    if s.offlineUuid(name) in w.players {
      var u := s.offlineUuid(name);
      assert s.offlineUuid(w.players[u].name) == s.offlineUuid(name);
    }
  }

  lemma EntryIsUnderItsUuid(s: Server, w: World, u: Uuid)
    requires Seated(s, w) && u in w.players
    ensures s.offlineUuid(w.players[u].name) == u
  {
    assert Owned(s, w, u);
    var i: int :| Holds(s, w, i, u);
    assert HasEntry(s, w, i, u);
  }

  lemma LeavingKeepsSeated(s: Server, w: World, m: Move, name: string, outcome: Outcome)
    requires Seated(s, w)
    requires m.who < |w.conns| && w.conns[m.who].phase == Leaving(name, outcome)
    ensures Seated(s, Act(s, w, m))
    ensures var u, after := s.offlineUuid(name), Act(s, w, m);
      u in w.players && after.players == w.players - {u} && after.conns[m.who].phase == Done(outcome)
  {
    hide Act, Holds, Owned;
    var u, after := s.offlineUuid(name), Act(s, w, m);
    LeavingRemoves(s, w, m, name, outcome);
    OthersKeepSeats(s, w, m);
    SeatedAt(s, w, m.who, name);
    UnseatedAt(s, after, m.who);
    assert HasEntry(s, w, m.who, u);
    assert after.players.Keys == w.players.Keys - {u};
    forall i: int, v: Uuid | Holds(s, after, i, v) ensures HasEntry(s, after, i, v) {
      assert HasEntry(s, w, i, v);
      if v == u { OneSeatEach(s, w, i, m.who, u); }
      EntryStays(s, w, after, i, v);
    }
    forall v: Uuid | v in after.players ensures Owned(s, after, v) {
      StaysOwned(s, w, after, m.who, v);
    }
  }

  lemma OneSeatEach(s: Server, w: World, i: int, j: int, u: Uuid)
    requires Seated(s, w) && Holds(s, w, i, u) && Holds(s, w, j, u)
    ensures i == j
  {
  }

  lemma LeavingRemoves(s: Server, w: World, m: Move, name: string, outcome: Outcome)
    requires m.who < |w.conns| && w.conns[m.who].phase == Leaving(name, outcome)
    ensures var after := Act(s, w, m);
      after.players == w.players - {s.offlineUuid(name)} && after.conns[m.who].phase == Done(outcome)
  {
    hide Read, Transmit, Admit, Seat, Server.Compression;
  }

  lemma QuietKeepsSeated(s: Server, w: World, m: Move)
    requires Seated(s, w)
    requires m.who < |w.conns| ==> !w.conns[m.who].phase.Joining? && !w.conns[m.who].phase.Leaving?
    ensures Seated(s, Act(s, w, m)) && Act(s, w, m).players == w.players
  {
    hide Step, Seated, Seat;
    if m.who < |w.conns| {
      StepKeepsSeat(s, w.conns[m.who], w.players, m.input);
      RefusalKeepsSeated(s, w, m);
    }
  }

  lemma ActKeepsSeated(s: Server, w: World, m: Move)
    requires s.Lawful() && Seated(s, w)
    ensures Seated(s, Act(s, w, m))
  {
    hide Act, Seated, Server.Lawful;
    if m.who < |w.conns| && w.conns[m.who].phase.Joining? {
      JoiningKeepsSeated(s, w, m, w.conns[m.who].phase.name);
    } else if m.who < |w.conns| && w.conns[m.who].phase.Leaving? {
      LeavingKeepsSeated(s, w, m, w.conns[m.who].phase.name, w.conns[m.who].phase.outcome);
    } else {
      QuietKeepsSeated(s, w, m);
    }
  }

  // ------------------------------------------------------------------ every run

  lemma {:induction false} RunIsSeated(s: Server, addrs: seq<nat>, moves: seq<Move>)
    requires s.Lawful()
    ensures Seated(s, Run(s, addrs, moves))
  {
    hide Seated, Act, Server.Lawful;
    if |moves| == 0 {
      NobodySeated(s, addrs);
    } else {
      RunIsSeated(s, addrs, moves[..|moves| - 1]);
      ActKeepsSeated(s, Run(s, addrs, moves[..|moves| - 1]), moves[|moves| - 1]);
    }
  }

  lemma NobodySeated(s: Server, addrs: seq<nat>)
    ensures Seated(s, Opening(addrs))
  {
    assert forall i: int, u: Uuid :: !Holds(s, Opening(addrs), i, u);
  }

  /** In every run the registry never exceeds the cap, its names are distinct, and its entries are
      one for one the connections between admission and departure. */
  lemma RegistryIsTheSeated(s: Server, addrs: seq<nat>, moves: seq<Move>)
    requires s.Lawful()
    ensures var w := Run(s, addrs, moves);
      && |w.players| <= (if s.maxPlayers < 0 then 0 else s.maxPlayers) && DistinctNames(w.players)
      && (forall u: Uuid :: u in w.players <==> Owned(s, w, u))
      && (forall i: int, j: int, u: Uuid :: Holds(s, w, i, u) && Holds(s, w, j, u) ==> i == j)
      && (forall i: int, u: Uuid :: Holds(s, w, i, u) ==> HasEntry(s, w, i, u))
  {
    hide Run, Server.Lawful, DistinctNames, HasPlayer;
    var w := Run(s, addrs, moves);
    RunIsSeated(s, addrs, moves);
    NameTakenIsSeated(s, w, "");
    forall u: Uuid | Owned(s, w, u) ensures u in w.players {
      var i: int :| Holds(s, w, i, u);
      assert HasEntry(s, w, i, u);
    }
  }

  /** What one step may do to the registry: a joining connection adds its own entry, exactly when
      there is room and no one has the name, and is told which of the two was missing, room first; a
      leaving one removes its own entry, whatever the surroundings do; every other step, refusals
      included, leaves all entries as they were. */
  lemma OnlyOwnEntry(s: Server, addrs: seq<nat>, moves: seq<Move>, m: Move)
    requires s.Lawful() && m.who < |addrs|
    ensures |Run(s, addrs, moves).conns| == |addrs|
    ensures var w := Run(s, addrs, moves);
      var c, before, after := w.conns[m.who], w.players, Act(s, w, m);
      match c.phase
      case Joining(name) =>
        var u := s.offlineUuid(name);
        if |before| < s.maxPlayers && !HasPlayer(before, name)
        then u !in before && after.players == before[u := PlayerInfo(u, name, c.addr)]
          && after.conns[m.who].phase == SendingBrand(name)
        else
          && after.players == before
          && after.conns[m.who].phase == RefusingJoin(if |before| >= s.maxPlayers then Full else NameTaken)
      case Leaving(name, outcome) =>
        s.offlineUuid(name) in before && after.players == before - {s.offlineUuid(name)}
        && after.conns[m.who].phase == Done(outcome)
      case _ => after.players == before
  {
    hide Run, Seated, Server.Lawful, Act;
    var w := Run(s, addrs, moves);
    ConnectionsStay(s, addrs, moves);
    RunIsSeated(s, addrs, moves);
    match w.conns[m.who].phase
    case Joining(name) =>
      JoiningKeepsSeated(s, w, m, name);
      NameTakenIsSeated(s, w, name);
      JoiningDecides(s, w, m, name);
    case Leaving(name, outcome) => LeavingKeepsSeated(s, w, m, name, outcome);
    case _ => QuietKeepsSeated(s, w, m);
  }

  lemma JoiningDecides(s: Server, w: World, m: Move, name: string)
    requires m.who < |w.conns| && w.conns[m.who].phase == Joining(name)
    ensures var c, after := w.conns[m.who], Act(s, w, m);
      match Admit(w.players, InfoOf(s, c, name), s.Cap())
      case Success(players) => after.players == players && after.conns[m.who] == c.(phase := SendingBrand(name))
      case Failure(why) => after.players == w.players && after.conns[m.who] == c.(phase := RefusingJoin(why))
  {
  }

  lemma {:induction false} ConnectionsStay(s: Server, addrs: seq<nat>, moves: seq<Move>)
    ensures |Run(s, addrs, moves).conns| == |addrs|
  {
    hide Step;
    if |moves| == 0 {
    } else {
      ConnectionsStay(s, addrs, moves[..|moves| - 1]);
    }
  }

  lemma {:induction false} RunIsSound(s: Server, addrs: seq<nat>, moves: seq<Move>, i: nat)
    requires s.Lawful() && i < |Run(s, addrs, moves).conns|
    ensures Sound(s, Run(s, addrs, moves).conns[i])
  {
    hide Sound, Step, Server.Lawful;
    if |moves| == 0 {
      AcceptedIsSound(s, addrs[i]);
    } else {
      var before, m := Run(s, addrs, moves[..|moves| - 1]), moves[|moves| - 1];
      RunIsSound(s, addrs, moves[..|moves| - 1], i);
      RunIsSeated(s, addrs, moves[..|moves| - 1]);
      if i == m.who { StepKeepsSound(s, before.conns[i], before.players, m.input); }
    }
  }

  // ------------------------------------------------------------------ what it means on the wire

  /** In every run a client that switches on SetCompression decodes exactly the packets sent, in
      order, and nothing is left over while the connection lives. */
  lemma ClientHearsWhatWasSent(s: Server, addrs: seq<nat>, moves: seq<Move>, i: nat)
    requires s.Lawful() && i < |Run(s, addrs, moves).conns|
    ensures var c := Run(s, addrs, moves).conns[i];
      var heard := Listen(s.zlib, Start(IsLogin(s, c.inbound.packets)), c.wire);
      heard.error == None && heard.packets == Rendered(s, c.sent) && (Live(c.phase) ==> heard.rest == [])
  {
    hide Run, InPlace, InboundFaithful, Listen, Wire, NoticeAll, Server.Lawful, IsLogin;
    RunIsSound(s, addrs, moves, i);
  }

  /** In every run SetCompression is the first packet if it is sent at all and travels plain; every
      later packet travels compressed at its threshold. */
  lemma SwitchIsOnTime(s: Server, addrs: seq<nat>, moves: seq<Move>, i: nat)
    requires s.Lawful() && i < |Run(s, addrs, moves).conns|
    ensures var c := Run(s, addrs, moves).conns[i];
      var modes := OutModes(s, IsLogin(s, c.inbound.packets));
      && Wire(s.zlib, modes, 0, Rendered(s, c.sent)).Success?
      && Wire(s.zlib, modes, 0, Rendered(s, c.sent)).value <= c.wire
      && modes(0) == None
      && (forall k :: 0 <= k < |c.sent| && c.sent[k].SetCompression? ==>
            k == 0 && c.sent[k].threshold == s.compressionThreshold
            && forall later :: later > 0 ==> modes(later) == Some(c.sent[k].threshold))
      && (forall k :: 0 < k < |c.sent| && modes(k).Some? ==> c.sent[0] == SetCompression(modes(k).value))
  {
    hide Run, InPlace, InboundFaithful, Listen, Wire, NoticeAll, Server.Lawful;
    RunIsSound(s, addrs, moves, i);
    var c := Run(s, addrs, moves).conns[i];
    StoppingIsAllowed(s, c);
    AllowedSwitch(s, c.inbound.packets, c.sent);
  }

  lemma StatusIsNotLogin(s: Server, received: seq<Packet>, sent: seq<Clientbound>)
    requires AllAnswer(s, received, sent)
    ensures forall k :: 0 <= k < |sent| ==> !sent[k].SetCompression? && !sent[k].LoginFinished?
  {
    hide AsksStatus, Pinged;
    forall k | 0 <= k < |sent| ensures !sent[k].SetCompression? && !sent[k].LoginFinished? {
      assert Answers(s, received[k + 1], sent[k]);
    }
  }

  lemma AllowedSwitch(s: Server, received: seq<Packet>, sent: seq<Clientbound>)
    requires Allowed(s, received, sent)
    ensures forall k :: 0 <= k < |sent| && sent[k].SetCompression? ==>
      k == 0 && IsLogin(s, received) && s.Compression() == Some(sent[k].threshold)
      && sent[k].threshold == s.compressionThreshold
    ensures |sent| > 1 && IsLogin(s, received) && s.Compression().Some? ==>
      sent[0] == SetCompression(s.Compression().value)
  {
    hide Intended, Named, Acknowledges, AsksStatus, Pinged, Chooses, AllAnswer;
    if AllAnswer(s, received, sent) { StatusIsNotLogin(s, received, sent); }
  }

  /** In every run LoginFinished is sent only to a client that spoke the supported version and gave a
      name, in offline mode, and it carries that name and its identity; whatever follows it is
      configuration. */
  lemma LoginFinishedIsEarned(s: Server, addrs: seq<nat>, moves: seq<Move>, i: nat, k: nat)
    requires s.Lawful() && i < |Run(s, addrs, moves).conns|
    requires k < |Run(s, addrs, moves).conns[i].sent| && Run(s, addrs, moves).conns[i].sent[k].LoginFinished?
    ensures var c := Run(s, addrs, moves).conns[i];
      var name := c.sent[k].name;
      && Greeted(s, c.inbound.packets, name) && !s.onlineMode
      && c.sent[k] == LoginFinished(s.offlineUuid(name), name, s.flag)
      && Intended(s, c.inbound.packets[0]).value.protocolVersion == 776
      && c.sent[..k] == (if s.compressionThreshold >= 0 then [SetCompression(s.compressionThreshold)] else [])
      && (|c.sent| > k + 1 ==> Acknowledged(s, c.inbound.packets, name))
      && forall j :: k < j < |c.sent| ==> c.sent[j].Brand? || c.sent[j].KnownPacks? || c.sent[j].Disconnect?
  {
    hide Run, InPlace, InboundFaithful, OutboundFramed, Server.Lawful;
    RunIsSound(s, addrs, moves, i);
    var c := Run(s, addrs, moves).conns[i];
    StoppingIsAllowed(s, c);
    AllowedFinish(s, c.inbound.packets, c.sent, k);
  }

  lemma AllowedFinish(s: Server, received: seq<Packet>, sent: seq<Clientbound>, k: nat)
    requires Allowed(s, received, sent) && k < |sent| && sent[k].LoginFinished?
    ensures var name := sent[k].name;
      && Greeted(s, received, name) && !s.onlineMode
      && sent[k] == LoginFinished(s.offlineUuid(name), name, s.flag)
      && Intended(s, received[0]).value.protocolVersion == 776
      && sent[..k] == (if s.compressionThreshold >= 0 then [SetCompression(s.compressionThreshold)] else [])
      && (|sent| > k + 1 ==> Acknowledged(s, received, name))
      && forall j :: k < j < |sent| ==> sent[j].Brand? || sent[j].KnownPacks? || sent[j].Disconnect?
  {
    hide Intended, Named, Acknowledges, AsksStatus, Pinged, Chooses, AllAnswer;
    if AllAnswer(s, received, sent) { StatusIsNotLogin(s, received, sent); }
  }

  /** In every run the way a connection ended says what happened: well only after a status exchange or
      the end of configuration, refused only with the matching notice sent as the last packet,
      unexpected packets named by their id. */
  lemma {:induction false} EndingsAreExplained(s: Server, addrs: seq<nat>, moves: seq<Move>, i: nat)
    requires s.Lawful() && i < |Run(s, addrs, moves).conns|
    ensures Explained(s, Run(s, addrs, moves).conns[i])
  {
    hide Sound, Step, Server.Lawful, Explains, InPlace, InboundFaithful, OutboundFramed;
    if |moves| == 0 {
    } else {
      var before, m := Run(s, addrs, moves[..|moves| - 1]), moves[|moves| - 1];
      EndingsAreExplained(s, addrs, moves[..|moves| - 1], i);
      RunIsInPlace(s, addrs, moves[..|moves| - 1], i);
      if i == m.who { StepKeepsExplained(s, before.conns[i], before.players, m.input); }
    }
  }

  /** In every run a connection that has ended was ended by one of its own moves, and the socket or the
      client gave the reason: silence only while it waited with no packet at hand, end of stream or a
      failed read likewise, a failed write only inside a frame, a protocol error only from its decoder,
      its reader of that phase or its encoder. */
  lemma {:induction false} EveryEndingHasACause(s: Server, addrs: seq<nat>, moves: seq<Move>, i: nat)
    requires i < |Run(s, addrs, moves).conns| && !Live(Run(s, addrs, moves).conns[i].phase)
    ensures exists k: nat :: EndedAt(s, addrs, moves, i, k)
  {
    hide Step, Live, EndedAt;
    if |moves| == 0 {
      HandshakeIsLive();
    } else {
      var front, m := moves[..|moves| - 1], moves[|moves| - 1];
      var before := Run(s, addrs, front);
      if Live(before.conns[i].phase) {
        JustEnded(s, addrs, moves, i);
      } else {
        EveryEndingHasACause(s, addrs, front, i);
        var k: nat :| EndedAt(s, addrs, front, i, k);
        StaysEnded(s, addrs, moves, i, k);
      }
    }
  }

  lemma HandshakeIsLive()
    ensures Live(Handshaking)
  {
  }

  /** Move `k` ended connection `i`, for the reason it ended. */
  ghost predicate EndedAt(s: Server, addrs: seq<nat>, moves: seq<Move>, i: nat, k: nat) {
    && k < |moves| && moves[k].who == i
    && i < |Run(s, addrs, moves).conns| && !Live(Run(s, addrs, moves).conns[i].phase)
    && i < |Run(s, addrs, moves[..k]).conns| && Live(Run(s, addrs, moves[..k]).conns[i].phase)
    && Causes(s, Run(s, addrs, moves[..k]).conns[i], moves[k].input, OutcomeOf(Run(s, addrs, moves).conns[i].phase))
  }

  lemma JustEnded(s: Server, addrs: seq<nat>, moves: seq<Move>, i: nat)
    requires |moves| > 0 && i < |Run(s, addrs, moves).conns| && !Live(Run(s, addrs, moves).conns[i].phase)
    requires var before := Run(s, addrs, moves[..|moves| - 1]);
      i < |before.conns| && Live(before.conns[i].phase)
    ensures EndedAt(s, addrs, moves, i, |moves| - 1)
  {
    hide Step, Live, Causes, OutcomeOf;
    var before, m := Run(s, addrs, moves[..|moves| - 1]), moves[|moves| - 1];
    StepHasCause(s, before.conns[i], before.players, m.input);
  }

  lemma StaysEnded(s: Server, addrs: seq<nat>, moves: seq<Move>, i: nat, k: nat)
    requires |moves| > 0 && EndedAt(s, addrs, moves[..|moves| - 1], i, k)
    ensures EndedAt(s, addrs, moves, i, k)
  {
    hide Step, Causes;
    var front, m := moves[..|moves| - 1], moves[|moves| - 1];
    var before := Run(s, addrs, front);
    assert front[..k] == moves[..k] && front[k] == moves[k];
    if m.who == i { EndedStaysEnded(s, before.conns[i], before.players, m.input); }
  }

  lemma EndedStaysEnded(s: Server, c: Conn, players: Roster, input: Input)
    requires !Live(c.phase)
    ensures var d := Step(s, c, players, input).0; !Live(d.phase) && OutcomeOf(d.phase) == OutcomeOf(c.phase)
  {
    hide Read, Transmit, Without;
  }

  lemma RunIsInPlace(s: Server, addrs: seq<nat>, moves: seq<Move>, i: nat)
    requires s.Lawful() && i < |Run(s, addrs, moves).conns|
    ensures InPlace(s, Run(s, addrs, moves).conns[i])
  {
    hide Run, InPlace, InboundFaithful, OutboundFramed, Server.Lawful;
    RunIsSound(s, addrs, moves, i);
  }

  /** In every run, however the bytes of a client arrive, the packets handled are the first ones of
      its stream, its decoder having switched where the client's encoder does. */
  lemma ServerHearsTheClient(s: Server, addrs: seq<nat>, moves: seq<Move>, i: nat, packets: seq<Packet>)
    requires s.Lawful() && i < |Run(s, addrs, moves).conns|
    requires var modes := InModes(s, IsLogin(s, packets));
      Wire(s.zlib, modes, 0, packets).Success? && AllRecoverable(modes, 0, packets)
      && Run(s, addrs, moves).conns[i].arrived <= Wire(s.zlib, modes, 0, packets).value
    ensures var c := Run(s, addrs, moves).conns[i];
      c.inbound.packets <= packets && c.inbound.error == None
  {
    hide Run, InPlace, OutboundFramed, Pull, Drain, Intended, InModes, Wire, AllRecoverable;
    RunIsSound(s, addrs, moves, i);
    var c := Run(s, addrs, moves).conns[i];
    var r, login := c.inbound.packets, IsLogin(s, packets);
    var wire := Wire(s.zlib, InModes(s, login), 0, packets).value;
    assert wire[..|c.arrived|] == c.arrived;
    PrefixDrains(s.zlib, InModes(s, login), 0, packets, |c.arrived|);
    if |r| > 0 {
      SameFirst(s, c.arrived, IsLogin(s, r), login);
      assert Drain(s.zlib, InModes(s, IsLogin(s, r)), 0, c.arrived).packets[0] == r[0];
      assert packets[0] == r[0];
    }
  }

  lemma SameFirst(s: Server, buf: seq<byte>, a: bool, b: bool)
    ensures var d, e := Drain(s.zlib, InModes(s, a), 0, buf), Drain(s.zlib, InModes(s, b), 0, buf);
      (|d.packets| > 0 <==> |e.packets| > 0) && (|d.packets| > 0 ==> d.packets[0] == e.packets[0])
  {
    hide Pull;
  }

  // ------------------------------------------------------------------ one connection running alone

  /** The world once connection `i` has taken its place in the scene. */
  function WithScene(w: World, i: nat, a: Scene): World
    requires i < |w.conns|
  {
    World(w.conns[i := a.conn], a.players)
  }

  lemma {:induction false} AloneKeeps(s: Server, w: World, i: nat, a: Scene, n: nat)
    requires s.Lawful() && i < |w.conns| && a.others == []
    requires Seated(s, WithScene(w, i, a)) && Sound(s, a.conn)
    ensures var b := Play(s, a, n); Seated(s, WithScene(w, i, b)) && Sound(s, b.conn)
    decreases n
  {
    hide Sound, Server.Lawful, Seated, Step, Next, Takes;
    if n == 0 {
    } else {
      var here, m := WithScene(w, i, a), Move(i, Next(s, a));
      assert Act(s, here, m) == WithScene(w, i, Advance(s, a));
      ActKeepsSeated(s, here, m);
      assert |a.players| <= s.Cap() by { SeatedIsCapped(s, here); }
      StepKeepsSound(s, a.conn, a.players, Next(s, a));
      AloneKeeps(s, w, i, Advance(s, a), n - 1);
    }
  }

  lemma SeatedIsCapped(s: Server, w: World)
    requires Seated(s, w)
    ensures |w.players| <= s.Cap()
  {
  }

  /** Two worlds that differ in one unseated connection have the same registry. */
  lemma SeatsDetermineRegistry(s: Server, w: World, after: World, i: nat)
    requires Seated(s, w) && Seated(s, after)
    requires i < |w.conns| && |after.conns| == |w.conns|
    requires Seat(w.conns[i].phase) == None && Seat(after.conns[i].phase) == None
    requires forall j: int :: 0 <= j < |w.conns| && j != i ==> after.conns[j] == w.conns[j]
    ensures after.players == w.players
  {
    hide Owned;
    assert forall j: int, u: Uuid :: Holds(s, w, j, u) <==> Holds(s, after, j, u);
    forall u: Uuid ensures Owned(s, w, u) <==> Owned(s, after, u) {
      if Owned(s, w, u) { StaysOwned(s, w, after, i, u); }
      if Owned(s, after, u) { StaysOwned(s, after, w, i, u); }
    }
    forall u: Uuid ensures u in w.players <==> u in after.players {
      RegisteredIsOwned(s, w, u);
      RegisteredIsOwned(s, after, u);
    }
    forall u: Uuid | u in w.players ensures after.players[u] == w.players[u] {
      RegisteredIsOwned(s, w, u);
      SameEntry(s, w, after, u);
    }
  }

  lemma RegisteredIsOwned(s: Server, w: World, u: Uuid)
    requires Seated(s, w)
    ensures u in w.players <==> Owned(s, w, u)
  {
    if Owned(s, w, u) {
      var i: int :| Holds(s, w, i, u);
      assert HasEntry(s, w, i, u);
    }
  }

  lemma SameEntry(s: Server, w: World, after: World, u: Uuid)
    requires Seated(s, w) && Seated(s, after) && u in w.players && u in after.players && Owned(s, w, u)
    requires forall j: int, v: Uuid :: Holds(s, w, j, v) <==> Holds(s, after, j, v)
    requires |after.conns| == |w.conns|
    requires forall j: int :: 0 <= j < |w.conns| && Seat(w.conns[j].phase).Some? ==> after.conns[j] == w.conns[j]
    ensures after.players[u] == w.players[u]
  {
    var j: int :| Holds(s, w, j, u);
    assert HasEntry(s, w, j, u) && HasEntry(s, after, j, u);
  }

  /** A connection that runs to its end while the others wait leaves the registry as it found it. */
  lemma RunLeavesNoTrace(s: Server, addrs: seq<nat>, moves: seq<Move>, i: nat, script: seq<Input>, end: Scene)
    requires s.Lawful() && i < |Run(s, addrs, moves).conns|
    requires var w := Run(s, addrs, moves);
      Seat(w.conns[i].phase) == None && Leads(s, Scene(w.conns[i], w.players, script, []), end)
    requires end.conn.phase.Done?
    ensures end.players == Run(s, addrs, moves).players
  {
    hide Run, Sound, Server.Lawful, Seated, Play;
    var w := Run(s, addrs, moves);
    var a := Scene(w.conns[i], w.players, script, []);
    var n: nat :| Play(s, a, n) == end;
    RunIsSeated(s, addrs, moves);
    RunIsSound(s, addrs, moves, i);
    assert w.conns[i := w.conns[i]] == w.conns;
    AloneKeeps(s, w, i, a, n);
    SeatsDetermineRegistry(s, w, WithScene(w, i, end), i);
  }

  // ------------------------------------------------------------------ every connection runs the program

  /** What is left of its script when connection `i` has made its moves, if they were the ones its
      script gives it. */
  function Remaining(s: Server, addrs: seq<nat>, moves: seq<Move>, i: nat, script: seq<Input>): Option<seq<Input>>
    requires i < |addrs|
  {
    if |moves| == 0 then Some(script)
    else
      var front, m := moves[..|moves| - 1], moves[|moves| - 1];
      match Remaining(s, addrs, front, i, script)
      case None => None
      case Some(left) =>
        if m.who != i then Some(left)
        else
          ConnectionsStay(s, addrs, front);
          var a := Scene(Run(s, addrs, front).conns[i], map[], left, []);
          if m.input != Next(s, a) then None
          else Some(if Takes(s, a) then left[1..] else left)
  }

  /** The registry as connection `i` found it at its visits. */
  function Company(s: Server, addrs: seq<nat>, moves: seq<Move>, i: nat): seq<Roster>
    requires i < |addrs|
  {
    if |moves| == 0 then []
    else
      var front, m := moves[..|moves| - 1], moves[|moves| - 1];
      ConnectionsStay(s, addrs, front);
      var w := Run(s, addrs, front);
      Company(s, addrs, front, i) + if m.who == i && Visits(s, w.conns[i]) then [w.players] else []
  }

  /** No visit of the first `n` steps falls back on the registry as it was. */
  ghost predicate Accompanied(s: Server, a: Scene, n: nat) {
    forall k: nat :: k < n && Visits(s, Play(s, a, k).conn) ==> |Play(s, a, k).others| > 0
  }

  lemma {:induction false} MoreCompany(s: Server, a: Scene, n: nat, more: seq<Roster>)
    requires Accompanied(s, a, n)
    ensures var b := a.(others := a.others + more);
      Accompanied(s, b, n) && Play(s, b, n) == Play(s, a, n).(others := Play(s, a, n).others + more)
    decreases n
  {
    hide Step, Visits, Takes, Next;
    var b := a.(others := a.others + more);
    if n == 0 {
    } else {
      assert Play(s, a, 0) == a;
      CompanyLeft(s, a, more);
      forall k: nat | k < n - 1 && Visits(s, Play(s, Advance(s, a), k).conn)
        ensures |Play(s, Advance(s, a), k).others| > 0
      {
        assert Play(s, a, k + 1) == Play(s, Advance(s, a), k);
      }
      MoreCompany(s, Advance(s, a), n - 1, more);
      forall k: nat | k < n && Visits(s, Play(s, b, k).conn) ensures |Play(s, b, k).others| > 0 {
        if k == 0 {
          assert Play(s, b, 0) == b;
        } else {
          assert Play(s, b, k) == Play(s, Advance(s, b), k - 1);
        }
      }
    }
  }

  lemma CompanyLeft(s: Server, a: Scene, more: seq<Roster>)
    requires Visits(s, a.conn) ==> |a.others| > 0
    ensures Advance(s, a.(others := a.others + more))
      == Advance(s, a).(others := Advance(s, a).others + more)
  {
    hide Step, Visits, Pull, EncodeFrame, Server.Render;
  }

  /** Away from a visit the registry does not matter. */
  lemma RegistryUnseen(s: Server, c: Conn, p: Roster, q: Roster, input: Input)
    requires !Visits(s, c)
    ensures Step(s, c, p, input).0 == Step(s, c, q, input).0
  {
    hide Pull, EncodeFrame, Server.Render, ReadIntention, ReadHello, ReadAcknowledged, ReadStatus, ReadConfiguration;
  }

  /** After `n` steps with this script and that company, the machine is where the connection is, all
      the company met and what is left of the script left. */
  ghost predicate PlaysTo(s: Server, addrs: seq<nat>, moves: seq<Move>, i: nat, script: seq<Input>, p: Roster, n: nat)
    requires i < |addrs|
  {
    var a := Scene(Accepted(addrs[i]), p, script, Company(s, addrs, moves, i));
    var b := Play(s, a, n);
    && |Run(s, addrs, moves).conns| == |addrs| && b.conn == Run(s, addrs, moves).conns[i]
    && Remaining(s, addrs, moves, i, script) == Some(b.script) && b.others == [] && Accompanied(s, a, n)
  }

  /** In every run of any number of connections, one that takes its inputs from a script does what the
      machine does alone with that script and that company, whatever the registry held at the start. */
  lemma {:induction false} EveryConnectionPlays(
    s: Server, addrs: seq<nat>, moves: seq<Move>, i: nat, script: seq<Input>, p: Roster)
    requires i < |addrs| && Remaining(s, addrs, moves, i, script).Some?
    ensures exists n: nat :: PlaysTo(s, addrs, moves, i, script, p, n)
    decreases |moves|
  {
    hide PlaysTo, Run;
    if |moves| == 0 {
      NothingPlayed(s, addrs, i, script, p);
    } else {
      var front := moves[..|moves| - 1];
      EveryConnectionPlays(s, addrs, front, i, script, p);
      var n: nat :| PlaysTo(s, addrs, front, i, script, p, n);
      if moves[|moves| - 1].who == i {
        PlaysOn(s, addrs, moves, i, script, p, n);
      } else {
        OthersPlay(s, addrs, moves, i, script, p, n);
      }
    }
  }

  lemma NothingPlayed(s: Server, addrs: seq<nat>, i: nat, script: seq<Input>, p: Roster)
    requires i < |addrs|
    ensures PlaysTo(s, addrs, [], i, script, p, 0)
  {
  }

  lemma OthersPlay(s: Server, addrs: seq<nat>, moves: seq<Move>, i: nat, script: seq<Input>, p: Roster, n: nat)
    requires i < |addrs| && |moves| > 0 && moves[|moves| - 1].who != i
    requires PlaysTo(s, addrs, moves[..|moves| - 1], i, script, p, n)
    ensures PlaysTo(s, addrs, moves, i, script, p, n)
  {
    hide Step, Visits, Takes, Next, Accompanied, Play;
    var front := moves[..|moves| - 1];
    assert Company(s, addrs, moves, i) == Company(s, addrs, front, i) + [] == Company(s, addrs, front, i);
  }

  lemma PlaysOn(s: Server, addrs: seq<nat>, moves: seq<Move>, i: nat, script: seq<Input>, p: Roster, n: nat)
    requires i < |addrs| && |moves| > 0 && moves[|moves| - 1].who == i
    requires Remaining(s, addrs, moves, i, script).Some?
    requires PlaysTo(s, addrs, moves[..|moves| - 1], i, script, p, n)
    ensures PlaysTo(s, addrs, moves, i, script, p, n + 1)
  {
    hide Step, Visits, Takes, Next, Accompanied;
    var front, m := moves[..|moves| - 1], moves[|moves| - 1];
    var w, left := Run(s, addrs, front), Remaining(s, addrs, front, i, script).value;
    var more := if Visits(s, w.conns[i]) then [w.players] else [];
    var a := Scene(Accepted(addrs[i]), p, script, Company(s, addrs, front, i));
    var b := a.(others := a.others + more);
    assert b.others == Company(s, addrs, moves, i);
    MoreCompany(s, a, n, more);
    var c := Play(s, b, n);
    assert c.others == more;
    PlayOn(s, b, n, 1);
    assert Play(s, c, 1) == Advance(s, c) by { assert Play(s, Advance(s, c), 0) == Advance(s, c); }
    SameNext(s, c, Scene(w.conns[i], map[], left, []));
    if !Visits(s, w.conns[i]) { RegistryUnseen(s, w.conns[i], c.players, w.players, m.input); }
    OneMoreAccompanied(s, b, n);
  }

  /** So the program, given that script and that company, ends where the connection ends. */
  lemma ProgramEndsAlike(
    s: Server, addrs: seq<nat>, moves: seq<Move>, i: nat, script: seq<Input>, p: Roster, end: Scene)
    requires i < |addrs| && Remaining(s, addrs, moves, i, script).Some?
    requires Leads(s, Scene(Accepted(addrs[i]), p, script, Company(s, addrs, moves, i)), end)
    requires |Run(s, addrs, moves).conns| == |addrs| && Run(s, addrs, moves).conns[i].phase.Done?
    requires end.conn.phase.Done?
    ensures end.conn == Run(s, addrs, moves).conns[i]
    ensures Some(end.script) == Remaining(s, addrs, moves, i, script) && end.others == []
  {
    hide Run, Play, Remaining, Company, Accompanied;
    EveryConnectionPlays(s, addrs, moves, i, script, p);
    var n: nat :| PlaysTo(s, addrs, moves, i, script, p, n);
    var a := Scene(Accepted(addrs[i]), p, script, Company(s, addrs, moves, i));
    OneEnding(s, a, end, Play(s, a, n));
  }

  lemma SameNext(s: Server, a: Scene, b: Scene)
    requires a.conn == b.conn && a.script == b.script
    ensures Next(s, a) == Next(s, b) && Takes(s, a) == Takes(s, b)
  {
    hide Pull, EncodeFrame, Server.Render;
  }

  lemma OneMoreAccompanied(s: Server, a: Scene, n: nat)
    requires Accompanied(s, a, n) && (Visits(s, Play(s, a, n).conn) ==> |Play(s, a, n).others| > 0)
    ensures Accompanied(s, a, n + 1)
  {
    hide Visits;
  }

  // ------------------------------------------------------------------ every run can be scripted

  /** The input as a script would give it: a wait takes what comes, a write that does not fail takes a
      failure past its end, and any other step needs nothing. */
  function Needed(s: Server, c: Conn, input: Input): Input {
    if Waits(s, c) then input
    else if Writes(s, c) then
      if input.WriteFailed? then input
      else WriteFailed(|EncodeFrame(s.zlib, c.compression, s.Render(Outgoing(s, c.phase).value)).value|)
    else Proceed
  }

  lemma NeededIsEnough(s: Server, c: Conn, players: Roster, input: Input)
    ensures Step(s, c, players, input) == Step(s, c, players, Needed(s, c, input))
  {
    hide Pull, EncodeFrame, Server.Render, Receive, Exit, AfterSent, AfterFailed, Admit;
  }

  /** The same moves with the inputs as scripts would give them. */
  function Scripted(s: Server, addrs: seq<nat>, moves: seq<Move>): (scripted: seq<Move>)
    ensures |scripted| == |moves|
  {
    if |moves| == 0 then []
    else
      var front, m := moves[..|moves| - 1], moves[|moves| - 1];
      var w := Run(s, addrs, front);
      Scripted(s, addrs, front)
      + [if m.who < |w.conns| then m.(input := Needed(s, w.conns[m.who], m.input)) else m]
  }

  /** The script of connection `i`: what its waits and writes take. */
  function ScriptOf(s: Server, addrs: seq<nat>, moves: seq<Move>, i: nat): seq<Input>
    requires i < |addrs|
  {
    if |moves| == 0 then []
    else
      var front, m := moves[..|moves| - 1], moves[|moves| - 1];
      ConnectionsStay(s, addrs, front);
      var c := Run(s, addrs, front).conns[i];
      ScriptOf(s, addrs, front, i)
      + if m.who == i && (Waits(s, c) || Writes(s, c)) then [Needed(s, c, m.input)] else []
  }

  lemma {:induction false} ScriptedRunsAlike(s: Server, addrs: seq<nat>, moves: seq<Move>)
    ensures Run(s, addrs, Scripted(s, addrs, moves)) == Run(s, addrs, moves)
    decreases |moves|
  {
    hide Step, Needed;
    if |moves| == 0 {
    } else {
      var front, m := moves[..|moves| - 1], moves[|moves| - 1];
      ScriptedRunsAlike(s, addrs, front);
      var w, scripted := Run(s, addrs, front), Scripted(s, addrs, moves);
      assert scripted[..|scripted| - 1] == Scripted(s, addrs, front);
      if m.who < |w.conns| { NeededIsEnough(s, w.conns[m.who], w.players, m.input); }
    }
  }

  /** Each connection takes just its script, item by item, and leaves what comes after it. */
  lemma {:induction false} ScriptedTakesScript(
    s: Server, addrs: seq<nat>, moves: seq<Move>, i: nat, more: seq<Input>)
    requires i < |addrs|
    ensures Remaining(s, addrs, Scripted(s, addrs, moves), i, ScriptOf(s, addrs, moves, i) + more) == Some(more)
    decreases |moves|
  {
    hide Step, Needed, Waits, Writes, Takes, Next;
    if |moves| == 0 {
      assert [] + more == more;
    } else {
      var front, m := moves[..|moves| - 1], moves[|moves| - 1];
      ConnectionsStay(s, addrs, front);
      var c, scripted := Run(s, addrs, front).conns[i], Scripted(s, addrs, moves);
      assert scripted[..|scripted| - 1] == Scripted(s, addrs, front);
      ScriptedRunsAlike(s, addrs, front);
      var item := if m.who == i && (Waits(s, c) || Writes(s, c)) then [Needed(s, c, m.input)] else [];
      ScriptedTakesScript(s, addrs, front, i, item + more);
      assert ScriptOf(s, addrs, moves, i) + more == ScriptOf(s, addrs, front, i) + (item + more);
      if m.who == i {
        NeededIsNext(s, Scene(c, map[], item + more, []), m.input, more);
      } else {
        assert item + more == more;
      }
    }
  }

  lemma NeededIsNext(s: Server, a: Scene, input: Input, more: seq<Input>)
    requires a.script == (if Waits(s, a.conn) || Writes(s, a.conn) then [Needed(s, a.conn, input)] else []) + more
    ensures Next(s, a) == Needed(s, a.conn, input)
    ensures (if Takes(s, a) then a.script[1..] else a.script) == more
  {
    hide Pull, EncodeFrame, Server.Render;
    WaitsOrWrites(s, a.conn);
  }

  lemma WaitsOrWrites(s: Server, c: Conn)
    ensures !(Waits(s, c) && Writes(s, c))
  {
    hide Pull, EncodeFrame, Server.Render;
  }

  /** Every run of any number of connections is one in which each takes all its inputs from a script, and
      so does what the machine does alone with that script and the registry as found. */
  lemma EveryRunIsScripted(s: Server, addrs: seq<nat>, moves: seq<Move>, i: nat, p: Roster)
    requires i < |addrs|
    ensures var scripted := Scripted(s, addrs, moves);
      && Run(s, addrs, scripted) == Run(s, addrs, moves)
      && Remaining(s, addrs, scripted, i, ScriptOf(s, addrs, moves, i)) == Some([])
      && exists n: nat :: PlaysTo(s, addrs, scripted, i, ScriptOf(s, addrs, moves, i), p, n)
  {
    hide Run, Scripted, ScriptOf, Remaining, PlaysTo;
    ScriptedRunsAlike(s, addrs, moves);
    ScriptedTakesScript(s, addrs, moves, i, []);
    assert ScriptOf(s, addrs, moves, i) + [] == ScriptOf(s, addrs, moves, i);
    EveryConnectionPlays(s, addrs, Scripted(s, addrs, moves), i, ScriptOf(s, addrs, moves, i), p);
  }
}
