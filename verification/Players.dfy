/** The set of connected players. `Admit` and `Without` say what one call does to the map. */
module Players {
  import opened Wrappers

  type Uuid = nat

  datatype PlayerInfo = PlayerInfo(uuid: Uuid, name: string, addr: nat)

  datatype JoinError = Full | NameTaken

  type Roster = map<Uuid, PlayerInfo>

  predicate HasPlayer(players: Roster, name: string) {
    exists u :: u in players && players[u].name == name
  }

  /** Capacity first, then the name; an admitted player is stored under their uuid. */
  function Admit(players: Roster, info: PlayerInfo, max: nat): Result<Roster, JoinError> {
    if |players| >= max then Failure(Full)
    else if HasPlayer(players, info.name) then Failure(NameTaken)
    else Success(players[info.uuid := info])
  }

  function Without(players: Roster, uuid: Uuid): Roster {
    players - {uuid}
  }

  ghost predicate DistinctNames(players: Roster) {
    forall u, v :: u in players && v in players && players[u].name == players[v].name ==> u == v
  }

  /** Admission stays under the cap and keeps names distinct, and it fails exactly when it must. */
  lemma AdmitLaws(players: Roster, info: PlayerInfo, max: nat)
    requires DistinctNames(players)
    ensures var r := Admit(players, info, max);
      (r.Success? <==> |players| < max && !HasPlayer(players, info.name))
      && (|players| >= max ==> r == Failure(Full))
      && (|players| < max && HasPlayer(players, info.name) ==> r == Failure(NameTaken))
      && (r.Success? ==> r.value == players[info.uuid := info])
      && (r.Success? ==> |r.value| <= max && DistinctNames(r.value) && HasPlayer(r.value, info.name))
  {
    if |players| < max && !HasPlayer(players, info.name) {
      var after := players[info.uuid := info];
      assert after[info.uuid].name == info.name;
      assert after.Keys == players.Keys + {info.uuid};
    }
  }

  /** A player admitted under a fresh uuid and then removed leaves no trace. */
  lemma RemovalUndoesAdmission(players: Roster, info: PlayerInfo, max: nat)
    requires Admit(players, info, max).Success?
    ensures Without(Admit(players, info, max).value, info.uuid) == players <==> info.uuid !in players
  {
    var after := Without(Admit(players, info, max).value, info.uuid);
    if info.uuid in players {
      assert info.uuid !in after;
    } else {
      assert after == players;
    }
  }

  /** Were two names to share a uuid, admitting the second would evict the first. */
  lemma SharedUuidEvicts(first: PlayerInfo, second: PlayerInfo)
    requires first.uuid == second.uuid && first.name != second.name
    ensures var players := map[first.uuid := first];
      Admit(players, second, 2) == Success(map[second.uuid := second])
  {
    var players := map[first.uuid := first];
    assert |players| == 1;
    assert players[first.uuid := second] == map[second.uuid := second];
  }

  class PlayerRegistry {
    var players: Roster

    constructor ()
      ensures players == map[]
    {
      players := map[];
    }

    method TryInsert(info: PlayerInfo, max: nat) returns (r: Result<(), JoinError>)
      modifies this
      ensures match Admit(old(players), info, max)
        case Failure(why) => r == Failure(why) && players == old(players)
        case Success(after) => r == Success(()) && players == after
    {
      if |players| >= max {
        return Failure(Full);
      }
      var taken := AnyNamed(info.name);
      if taken {
        return Failure(NameTaken);
      }
      players := players[info.uuid := info];
      return Success(());
    }

    /** Walks the values until a name matches. */
    method AnyNamed(name: string) returns (found: bool)
      ensures found <==> HasPlayer(players, name)
    {
      var left := players.Keys;
      found := false;
      while left != {} && !found
        invariant left <= players.Keys
        invariant forall u :: u in players && u !in left ==> found || players[u].name != name
        invariant found ==> HasPlayer(players, name)
        decreases left
      {
        var u :| u in left;
        found := players[u].name == name;
        left := left - {u};
      }
    }

    method Remove(uuid: Uuid) returns (gone: Option<PlayerInfo>)
      modifies this
      ensures players == Without(old(players), uuid)
      ensures gone == if uuid in old(players) then Some(old(players)[uuid]) else None
    {
      gone := if uuid in players then Some(players[uuid]) else None;
      players := players - {uuid};
    }

    method Count() returns (n: nat)
      ensures n == |players|
    {
      n := |players|;
    }
  }
}
