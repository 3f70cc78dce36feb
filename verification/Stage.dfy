/**
  A connection and everything that can happen to it. What the socket will do is a script taken from
  the front; what the other connections make of the registry is the list of what this one finds at
  its visits. Given both, the machine has exactly one run, `Play`.
 */
module Stages {
  import opened Wrappers
  import opened Bytes
  import opened Codecs
  import opened Players
  import opened Connections
  import opened LoginFlows

  datatype Scene = Scene(conn: Conn, players: Roster, script: seq<Input>, others: seq<Roster>)

  // ------------------------------------------------------------------ one step

  /** Whether the next step looks at the registry. */
  predicate Visits(s: Server, c: Conn) {
    c.phase.Joining? || c.phase.Leaving?
    || (c.phase.InStatus? && match Pull(s.zlib, c.compression, c.inbound.buffer)
        case Got(packet, _) => ReadStatus(s, packet) == Success(Poll)
        case Fail(_, _) => false
        case More => false)
  }

  /** At a visit the registry is as the others have left it; with nothing said, as it was. */
  function Found(s: Server, a: Scene): Roster {
    if Visits(s, a.conn) && |a.others| > 0 then a.others[0] else a.players
  }

  /** Whether the connection has a frame to write. */
  predicate Writes(s: Server, c: Conn) {
    var p := Outgoing(s, c.phase);
    p.Some? && EncodeFrame(s.zlib, c.compression, s.Render(p.value)).Success?
  }

  /** A wait takes what is next in the script, whatever it is; a write takes a failure that is next. */
  predicate Takes(s: Server, a: Scene) {
    |a.script| > 0 && (Waits(s, a.conn) || (Writes(s, a.conn) && a.script[0].WriteFailed?))
  }

  /** A wait with nothing left to happen runs out of time; other steps need nothing. */
  function Next(s: Server, a: Scene): Input {
    if Takes(s, a) then a.script[0] else if Waits(s, a.conn) then TimeIsUp else Proceed
  }

  function Advance(s: Server, a: Scene): Scene {
    var (c, players) := Step(s, a.conn, Found(s, a), Next(s, a));
    Scene(c, players,
          if Takes(s, a) then a.script[1..] else a.script,
          if Visits(s, a.conn) && |a.others| > 0 then a.others[1..] else a.others)
  }

  // ------------------------------------------------------------------ many steps

  function Play(s: Server, a: Scene, n: nat): Scene
    decreases n
  {
    if n == 0 then a else Play(s, Advance(s, a), n - 1)
  }

  ghost predicate Leads(s: Server, a: Scene, b: Scene) {
    exists n: nat :: Play(s, a, n) == b
  }

  lemma StaysPut(s: Server, a: Scene)
    ensures Leads(s, a, a)
  {
    assert Play(s, a, 0) == a;
  }

  lemma {:induction false} PlayOn(s: Server, a: Scene, m: nat, n: nat)
    ensures Play(s, a, m + n) == Play(s, Play(s, a, m), n)
    decreases m
  {
    hide Advance;
    if m == 0 {
    } else {
      PlayOn(s, Advance(s, a), m - 1, n);
    }
  }

  lemma OneStep(s: Server, a: Scene)
    ensures Leads(s, a, Advance(s, a))
  {
    hide Advance;
    assert Play(s, Advance(s, a), 0) == Advance(s, a);
    assert Play(s, a, 1) == Advance(s, a);
  }

  lemma Then(s: Server, a: Scene, b: Scene, c: Scene)
    requires Leads(s, a, b) && Leads(s, b, c)
    ensures Leads(s, a, c)
  {
    hide Play;
    var m: nat :| Play(s, a, m) == b;
    var n: nat :| Play(s, b, n) == c;
    PlayOn(s, a, m, n);
  }

  lemma AndOn(s: Server, a: Scene, b: Scene)
    requires Leads(s, a, b)
    ensures Leads(s, a, Advance(s, b))
  {
    hide Leads, Advance;
    OneStep(s, b);
    Then(s, a, b, Advance(s, b));
  }

  // ------------------------------------------------------------------ the run is determined

  lemma DoneStays(s: Server, a: Scene)
    requires a.conn.phase.Done?
    ensures Advance(s, a) == a
  {
    hide Pull, EncodeFrame, Transmit, Read;
  }

  lemma {:induction false} DonePlaysOn(s: Server, a: Scene, n: nat)
    requires a.conn.phase.Done?
    ensures Play(s, a, n) == a
  {
    hide Advance;
    if n == 0 {
    } else {
      DoneStays(s, a);
      DonePlaysOn(s, a, n - 1);
    }
  }

  /** The surroundings decide everything: there is only one way to end. */
  lemma OneEnding(s: Server, a: Scene, b: Scene, c: Scene)
    requires Leads(s, a, b) && Leads(s, a, c) && b.conn.phase.Done? && c.conn.phase.Done?
    ensures b == c
  {
    hide Play;
    var m: nat :| Play(s, a, m) == b;
    var n: nat :| Play(s, a, n) == c;
    if m <= n {
      PlayOn(s, a, m, n - m);
      DonePlaysOn(s, b, n - m);
    } else {
      PlayOn(s, a, n, m - n);
      DonePlaysOn(s, c, m - n);
    }
  }

  // ------------------------------------------------------------------ what is taken arrives

  /** The bytes a stretch of script delivers. */
  function Delivered(script: seq<Input>): seq<byte> {
    if |script| == 0 then []
    else (if script[0].Arrived? then script[0].chunk else []) + Delivered(script[1..])
  }

  /** What has been taken of a script when `after` is left of it. */
  function Taken(before: seq<Input>, after: seq<Input>): seq<Input>
    requires |after| <= |before|
  {
    before[..|before| - |after|]
  }

  /** Bytes reach the connection exactly as the script delivers them, none lost and none invented. */
  ghost predicate Arrives(a: Scene, b: Scene) {
    && |b.script| <= |a.script| && b.script == a.script[|a.script| - |b.script|..]
    && b.conn.arrived == a.conn.arrived + Delivered(Taken(a.script, b.script))
  }

  lemma AdvanceArrives(s: Server, a: Scene)
    ensures Arrives(a, Advance(s, a))
  {
    hide Pull, EncodeFrame, Server.Render, Visits, Found;
    var b := Advance(s, a);
    if Waits(s, a.conn) {
      WaitArrives(s, a);
    } else {
      QuietArrives(s, a.conn, Found(s, a), Next(s, a));
    }
    assert a.conn.arrived + [] == a.conn.arrived;
    if Takes(s, a) {
      var head := a.script[0];
      assert Taken(a.script, b.script) == [head] && [head][1..] == [];
      assert Delivered([head]) == (if head.Arrived? then head.chunk else []) + [];
      assert Delivered([head]) == if head.Arrived? then head.chunk else [];
    } else {
      assert Taken(a.script, b.script) == [];
    }
  }

  lemma WaitArrives(s: Server, a: Scene)
    requires Waits(s, a.conn)
    ensures Advance(s, a).conn.arrived
         == a.conn.arrived + if |a.script| > 0 && a.script[0].Arrived? then a.script[0].chunk else []
  {
    hide Step, Visits, Found, Waits, Writes;
    WaitingArrives(s, a.conn, Found(s, a), Next(s, a));
  }

  lemma WaitingArrives(s: Server, c: Conn, players: Roster, input: Input)
    requires Waits(s, c)
    ensures Step(s, c, players, input).0.arrived == c.arrived + if input.Arrived? then input.chunk else []
  {
    hide Pull, Read, Transmit, Admit;
    DryReadArrives(s, c, |players|, input);
  }

  lemma DryReadArrives(s: Server, c: Conn, online: nat, input: Input)
    requires Pull(s.zlib, c.compression, c.inbound.buffer) == More
    ensures Read(s, c, online, input).arrived == c.arrived + if input.Arrived? then input.chunk else []
  {
    hide Pull, Receive, Exit;
    ExitOnlyMoves(c, Success(()));
    ExitOnlyMoves(c, Failure(Closed));
    ExitOnlyMoves(c, Failure(Io));
    ExitOnlyMoves(c, Failure(TimedOut));
    assert c.arrived + [] == c.arrived;
  }

  lemma QuietArrives(s: Server, c: Conn, players: Roster, input: Input)
    requires !Waits(s, c)
    ensures Step(s, c, players, input).0.arrived == c.arrived
  {
    hide Pull, EncodeFrame, Server.Render, Admit;
    hide ReadIntention, ReadHello, ReadAcknowledged, ReadStatus, ReadConfiguration;
  }

  lemma ArrivesOn(a: Scene, b: Scene, c: Scene)
    requires Arrives(a, b) && Arrives(b, c)
    ensures Arrives(a, c)
  {
    var first, second := Taken(a.script, b.script), Taken(b.script, c.script);
    assert Taken(a.script, c.script) == first + second;
    DeliveredOn(first, second);
    assert a.conn.arrived + (Delivered(first) + Delivered(second))
        == a.conn.arrived + Delivered(first) + Delivered(second);
  }

  lemma {:induction false} DeliveredOn(a: seq<Input>, b: seq<Input>)
    ensures Delivered(a + b) == Delivered(a) + Delivered(b)
  {
    if |a| == 0 {
      assert a + b == b;
    } else {
      assert (a + b)[1..] == a[1..] + b;
      DeliveredOn(a[1..], b);
    }
  }

  lemma {:induction false} PlayArrives(s: Server, a: Scene, n: nat)
    ensures Arrives(a, Play(s, a, n))
    decreases n
  {
    hide Advance, Arrives;
    if n == 0 {
      NothingArrives(a);
    } else {
      AdvanceArrives(s, a);
      PlayArrives(s, Advance(s, a), n - 1);
      ArrivesOn(a, Advance(s, a), Play(s, a, n));
    }
  }

  lemma NothingArrives(a: Scene)
    ensures Arrives(a, a)
  {
    assert Taken(a.script, a.script) == [];
    assert a.conn.arrived + [] == a.conn.arrived;
  }

  lemma LeadsArrives(s: Server, a: Scene, b: Scene)
    requires Leads(s, a, b)
    ensures Arrives(a, b)
  {
    hide Play, Arrives;
    var n: nat :| Play(s, a, n) == b;
    PlayArrives(s, a, n);
  }

  // ------------------------------------------------------------------ what holds of every run

  /** No registry this connection meets is over the cap. */
  ghost predicate Capped(s: Server, a: Scene) {
    |a.players| <= s.Cap() && forall r :: r in a.others ==> |r| <= s.Cap()
  }

  lemma AdvanceKeepsSound(s: Server, a: Scene)
    requires s.Lawful() && Capped(s, a) && Sound(s, a.conn) && Explained(s, a.conn)
    ensures var b := Advance(s, a); Capped(s, b) && Sound(s, b.conn) && Explained(s, b.conn)
  {
    hide Sound, InPlace, Explained, Server.Lawful, Step, Visits, Takes, Next;
    assert InPlace(s, a.conn) by { SoundIsInPlace(s, a.conn); }
    StepKeepsSound(s, a.conn, Found(s, a), Next(s, a));
    StepKeepsExplained(s, a.conn, Found(s, a), Next(s, a));
    StepKeepsCap(s, a.conn, Found(s, a), Next(s, a));
  }

  lemma SoundIsInPlace(s: Server, c: Conn)
    requires Sound(s, c)
    ensures InPlace(s, c)
  {
  }

  lemma StepKeepsCap(s: Server, c: Conn, players: Roster, input: Input)
    requires |players| <= s.Cap()
    ensures |Step(s, c, players, input).1| <= s.Cap()
  {
    hide Transmit, Read, Server.Compression, Server.Cap, HasPlayer;
    match c.phase
    case Joining(name) =>
      var info := InfoOf(s, c, name);
      assert players[info.uuid := info].Keys == players.Keys + {info.uuid};
    case Leaving(name, _) =>
      FewerPlayers(players, s.offlineUuid(name));
    case _ =>
  }

  lemma FewerPlayers(players: Roster, uuid: Uuid)
    ensures |Without(players, uuid)| <= |players|
  {
    var after := Without(players, uuid);
    assert after.Keys == players.Keys - {uuid};
    if uuid in players.Keys {
      assert |players.Keys - {uuid}| == |players.Keys| - 1;
    } else {
      assert players.Keys - {uuid} == players.Keys;
    }
    assert |after| == |after.Keys| && |players| == |players.Keys|;
  }

  /** Whatever the socket does and whatever the others do to the registry, every guarantee about one
      connection holds all along its run. */
  lemma {:induction false} PlayKeepsSound(s: Server, a: Scene, n: nat)
    requires s.Lawful() && Capped(s, a) && Sound(s, a.conn) && Explained(s, a.conn)
    ensures var b := Play(s, a, n); Capped(s, b) && Sound(s, b.conn) && Explained(s, b.conn)
    decreases n
  {
    hide Advance, Capped, Sound, Explained, Server.Lawful;
    if n == 0 {
    } else {
      AdvanceKeepsSound(s, a);
      PlayKeepsSound(s, Advance(s, a), n - 1);
    }
  }

  lemma RunIsLawful(s: Server, addr: nat, players: Roster, script: seq<Input>, others: seq<Roster>, b: Scene)
    requires s.Lawful() && Capped(s, Scene(Accepted(addr), players, script, others))
    requires Leads(s, Scene(Accepted(addr), players, script, others), b)
    ensures Sound(s, b.conn) && Explained(s, b.conn)
  {
    hide Play, Capped, Sound, Server.Lawful;
    var a := Scene(Accepted(addr), players, script, others);
    var n: nat :| Play(s, a, n) == b;
    AcceptedIsSound(s, addr);
    PlayKeepsSound(s, a, n);
  }
}
