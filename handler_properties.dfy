/**
 * What each gateway handler does to the registry and what it sends, stated
 * case by case over the transitions of GatewayHandlers: the admin-only
 * guards, the effect of every successful edit on the one room it touches,
 * and the cases that change nothing.
 */
module HandlerProperties {
  import opened Wrappers
  import opened Rooms
  import opened GatewayTypes
  import opened GatewayHandlers
  import opened AdminInvariant
  import opened JsString
  import JsMap

  /** Every room but the one stored under `roomId` is left as it was, and the room order is kept. */
  ghost predicate OnlyRoomChanged(before: Registry, after: Registry, roomId: RoomId) {
    && after.keys == before.keys
    && (forall k | k in before.data && k != roomId :: k in after.data && after.data[k] == before.data[k])
  }

  /** A room keeps its id, its status and the order of its players. */
  ghost predicate SameShell(room: GatewayRoom, room': GatewayRoom) {
    room'.id == room.id && room'.status == room.status && room'.players.keys == room.players.keys
  }

  /** Storing a room under an already registered id changes no other room. */
  lemma ReplaceOnlyChanges(reg: Registry, roomId: RoomId, room: GatewayRoom)
    requires roomId in reg.data
    ensures OnlyRoomChanged(reg, JsMap.Set(reg, roomId, room), roomId)
  {
  }

  // ----- getPlayerRoom -----

  /**
   * `getPlayerRoom` finds a room exactly when some stored room seats the
   * player, and what it finds is a stored room that seats the player.
   */
  lemma PlayerRoomSpec(reg: Registry, playerId: PlayerId)
    ensures PlayerRoom(reg, playerId).None? <==> forall k | k in reg.data :: playerId !in reg.data[k].players.data
    ensures PlayerRoom(reg, playerId).Some? ==>
      && playerId in PlayerRoom(reg, playerId).value.players.data
      && exists k | k in reg.data :: reg.data[k] == PlayerRoom(reg, playerId).value
  {
    var vals := JsMap.Values(reg);
    FirstRoomWithFinds(vals, playerId);
    if PlayerRoom(reg, playerId).Some? {
      JsMap.ValuesAreStored(reg, PlayerRoom(reg, playerId).value);
    } else {
      forall k | k in reg.data ensures playerId !in reg.data[k].players.data {
        var i := JsMap.KeyPosition(reg, k);
        assert vals[i] == reg.data[k];
      }
    }
  }

  /**
   * Once the room `getPlayerRoom` found is replaced by one that still seats
   * the player, `getPlayerRoom` finds the replacement.
   */
  lemma PlayerRoomAfterReplace(reg: Registry, playerId: PlayerId, room: GatewayRoom, room': GatewayRoom)
    requires WellFormed(reg) && PlayerRoom(reg, playerId) == Some(room)
    requires playerId in room'.players.data
    ensures PlayerRoom(JsMap.Set(reg, room.id, room'), playerId) == Some(room')
  {
    var vals := JsMap.Values(reg);
    FirstRoomWithFinds(vals, playerId);
    var i :| 0 <= i < |vals| && vals[i] == room && (forall j | 0 <= j < i :: !Seats(vals[j], playerId));
    assert reg.keys[i] in reg.data;
    assert room.id == reg.keys[i];
    var reg' := JsMap.Set(reg, room.id, room');
    var vals' := JsMap.Values(reg');
    assert reg'.keys == reg.keys;
    forall j | 0 <= j < i ensures !Seats(vals'[j], playerId) {
      assert reg.keys[j] != reg.keys[i];
      assert vals'[j] == vals[j];
    }
    FirstRoomAt(vals', playerId, i);
  }

  // ----- joinRoom -----

  /** Joining an unknown room changes nothing and tells only the caller. */
  lemma JoinUnknownRoom(reg: Registry, client: PlayerId, roomId: RoomId, playerName: Option<string>)
    requires roomId !in reg.data
    ensures OnJoinRoom(reg, client, roomId, playerName) == Step(reg, [Event(Caller(client), "error", Str("Room not found"))])
  {
  }

  /**
   * Joining a known room seats the caller under its connection id: ADMIN
   * exactly when the room was empty, named `playerName` or "guest", allowed
   * to vote, not voted.
   */
  lemma JoinSeatsPlayer(reg: Registry, client: PlayerId, roomId: RoomId, playerName: Option<string>)
    requires roomId in reg.data
    ensures var room, s := reg.data[roomId], OnJoinRoom(reg, client, roomId, playerName);
      && roomId in s.rooms.data
      && client in s.rooms.data[roomId].players.data
      && var p := s.rooms.data[roomId].players.data[client];
      && p.id == client
      && (p.role == Admin <==> room.players.data == map[])
      && p.name == (if playerName.Some? then playerName.value else "guest")
      && p.canVote && p.choice == Flag(false)
  {
  }

  /**
   * Joining a known room changes no other seat: a re-join keeps its place
   * and a new player goes last.
   */
  lemma JoinKeepsOthers(reg: Registry, client: PlayerId, roomId: RoomId, playerName: Option<string>)
    requires roomId in reg.data
    ensures var room, s := reg.data[roomId], OnJoinRoom(reg, client, roomId, playerName);
      && roomId in s.rooms.data
      && var room' := s.rooms.data[roomId];
      && room'.id == room.id && room'.status == room.status
      && client in room'.players.data
      && room'.players.data == room.players.data[client := room'.players.data[client]]
      && room'.players.keys == (if client in room.players.data then room.players.keys else room.players.keys + [client])
  {
    var room := reg.data[roomId];
    var joiner := Joiner(client, playerName, JsMap.Size(room.players) == 0);
    var room' := room.(players := JsMap.Set(room.players, client, joiner));
    assert OnJoinRoom(reg, client, roomId, playerName).rooms.data[roomId] == room';
  }

  /** Joining a known room changes no other room and sends the room's group the new snapshot. */
  lemma JoinPublishes(reg: Registry, client: PlayerId, roomId: RoomId, playerName: Option<string>)
    requires roomId in reg.data
    ensures var s := OnJoinRoom(reg, client, roomId, playerName);
      && OnlyRoomChanged(reg, s.rooms, roomId)
      && roomId in s.rooms.data
      && s.events == [RoomUpdateEvent(s.rooms.data[roomId])]
  {
    var room := reg.data[roomId];
    var joiner := Joiner(client, playerName, JsMap.Size(room.players) == 0);
    var room' := room.(players := JsMap.Set(room.players, client, joiner));
    assert OnJoinRoom(reg, client, roomId, playerName) == Step(JsMap.Set(reg, roomId, room'), [RoomUpdateEvent(room')]);
    ReplaceOnlyChanges(reg, roomId, room');
  }

  /**
   * "At most one" ADMIN is all the gateway keeps: when the ADMIN's own
   * connection joins its room again, it is overwritten as COMMON and the
   * room is left with no ADMIN at all.
   */
  lemma RejoinDemotesAdmin(reg: Registry, client: PlayerId, roomId: RoomId, playerName: Option<string>)
    requires WellFormed(reg) && roomId in reg.data && IsAdminIn(reg.data[roomId], client)
    ensures forall a :: !IsAdminIn(OnJoinRoom(reg, client, roomId, playerName).rooms.data[roomId], a)
  {
    var room := reg.data[roomId];
    SoleAdmin(room, client);
    var room' := OnJoinRoom(reg, client, roomId, playerName).rooms.data[roomId];
    assert JsMap.Size(room.players) != 0;
    forall a ensures !IsAdminIn(room', a) {
      if a != client {
        assert !IsAdminIn(room, a);
      }
    }
  }

  // ----- admin-only guards -----

  /**
   * kickPlayer answers "Not authorized" to the caller, and changes nothing,
   * exactly when the caller is not ADMIN or names itself.
   */
  lemma KickGuard(reg: Registry, client: PlayerId, targetId: PlayerId, room: GatewayRoom)
    requires WellFormed(reg) && PlayerRoom(reg, client) == Some(room)
    ensures (OnKickPlayer(reg, client, targetId) == Step(reg, [ErrorTo(client, "Not authorized")]))
        <==> (!IsAdminIn(room, client) || targetId == client)
  {
    PlayerRoomStored(reg, client, room);
  }

  /** updateVotingStatus from a non-ADMIN answers "Not authorized" and changes nothing. */
  lemma UpdateVotingStatusGuard(reg: Registry, client: PlayerId, targetId: PlayerId, canVote: bool, room: GatewayRoom)
    requires PlayerRoom(reg, client) == Some(room) && !IsAdminIn(room, client)
    ensures OnUpdateVotingStatus(reg, client, targetId, canVote) == Step(reg, [ErrorTo(client, "Not authorized")])
  {
  }

  /** reset of a known room by a caller not ADMIN there answers "Not authorized" and changes nothing. */
  lemma ResetGuard(reg: Registry, client: PlayerId, roomId: RoomId)
    requires roomId in reg.data && !IsAdminIn(reg.data[roomId], client)
    ensures OnReset(reg, client, roomId) == Step(reg, [ErrorTo(client, "Not authorized")])
  {
  }

  /** revealCards of a known room by a caller not ADMIN there answers "Not authorized" and changes nothing. */
  lemma RevealGuard(reg: Registry, client: PlayerId, roomId: RoomId)
    requires roomId in reg.data && !IsAdminIn(reg.data[roomId], client)
    ensures OnRevealCards(reg, client, roomId) == Step(reg, [ErrorTo(client, "Not authorized")])
  {
  }

  /** reset and revealCards of an unknown room do nothing at all. */
  lemma UnknownRoomIgnored(reg: Registry, client: PlayerId, roomId: RoomId)
    requires roomId !in reg.data
    ensures OnReset(reg, client, roomId) == Step(reg, [])
    ensures OnRevealCards(reg, client, roomId) == Step(reg, [])
  {
  }

  /** Every handler that looks up the caller's room does nothing for a connection seated nowhere. */
  lemma UnseatedCallerIgnored(reg: Registry, client: PlayerId, targetId: PlayerId, newName: string, canVote: bool, choice: Choice)
    requires forall k | k in reg.data :: client !in reg.data[k].players.data
    ensures OnDisconnect(reg, client) == Step(reg, [])
    ensures OnKickPlayer(reg, client, targetId) == Step(reg, [])
    ensures OnChangeName(reg, client, targetId, newName) == Step(reg, [])
    ensures OnUpdateVotingStatus(reg, client, targetId, canVote) == Step(reg, [])
    ensures OnTransferAdmin(reg, client, targetId) == Step(reg, [])
    ensures OnChooseCard(reg, client, choice) == Step(reg, [])
  {
    PlayerRoomSpec(reg, client);
  }

  // ----- removal -----

  /**
   * An ADMIN kicking another seated player removes exactly that player from
   * the room, keeps everyone else and every other room, and tells the room.
   */
  lemma KickRemovesOnlyTarget(reg: Registry, client: PlayerId, targetId: PlayerId, room: GatewayRoom)
    requires WellFormed(reg) && PlayerRoom(reg, client) == Some(room)
    requires IsAdminIn(room, client) && targetId != client && targetId in room.players.data
    ensures var s := OnKickPlayer(reg, client, targetId);
      && OnlyRoomChanged(reg, s.rooms, room.id)
      && room.id in s.rooms.data
      && s.rooms.data[room.id].id == room.id
      && s.rooms.data[room.id].players.data == room.players.data - {targetId}
      && s.rooms.data[room.id].players.keys == JsMap.Without(room.players.keys, targetId)
      && s.rooms.data[room.id].status == room.status
      && s.events == [Event(RoomGroup(room.id), "playerKicked", Str(targetId))]
  {
    PlayerRoomStored(reg, client, room);
  }

  /** An ADMIN kicking a connection not seated in its room changes nothing and hears "Player not found". */
  lemma KickMissingTarget(reg: Registry, client: PlayerId, targetId: PlayerId, room: GatewayRoom)
    requires WellFormed(reg) && PlayerRoom(reg, client) == Some(room)
    requires IsAdminIn(room, client) && targetId !in room.players.data
    ensures OnKickPlayer(reg, client, targetId) == Step(reg, [ErrorTo(client, "Player not found")])
  {
    PlayerRoomStored(reg, client, room);
  }

  /** A non-ADMIN's disconnect removes exactly that player; the room stays, even when empty. */
  lemma DisconnectRemovesPlayer(reg: Registry, client: PlayerId, room: GatewayRoom)
    requires WellFormed(reg) && PlayerRoom(reg, client) == Some(room) && !IsAdminIn(room, client)
    ensures var s := OnDisconnect(reg, client);
      && OnlyRoomChanged(reg, s.rooms, room.id)
      && room.id in s.rooms.data
      && s.rooms.data[room.id].id == room.id
      && s.rooms.data[room.id].players.data == room.players.data - {client}
      && s.rooms.data[room.id].players.keys == JsMap.Without(room.players.keys, client)
      && s.rooms.data[room.id].status == room.status
      && s.events == [Event(RoomGroup(room.id), "playerLeft", Str(client))]
  {
    PlayerRoomStored(reg, client, room);
  }

  /** The ADMIN's disconnect closes the room: it is removed from the registry, the others stay in order. */
  lemma DisconnectAdminClosesRoom(reg: Registry, client: PlayerId, room: GatewayRoom)
    requires WellFormed(reg) && PlayerRoom(reg, client) == Some(room) && IsAdminIn(room, client)
    ensures var s := OnDisconnect(reg, client);
      && s.rooms.data == reg.data - {room.id}
      && s.rooms.keys == JsMap.Without(reg.keys, room.id)
      && s.events == [Event(RoomGroup(room.id), "adminDisconnected", NoPayload)]
  {
    PlayerRoomStored(reg, client, room);
  }

  // ----- changeName -----

  /**
   * A rename with a non-blank name stores the trimmed name on the target
   * (the caller itself unless it is ADMIN naming someone else) and changes
   * nothing else.
   */
  lemma ChangeNameStoresTrimmed(reg: Registry, client: PlayerId, targetId: PlayerId, newName: string, room: GatewayRoom)
    requires WellFormed(reg) && PlayerRoom(reg, client) == Some(room)
    requires RenameTarget(room, client, targetId) in room.players.data && Trim(newName) != ""
    ensures var key, s := RenameTarget(room, client, targetId), OnChangeName(reg, client, targetId, newName);
      && OnlyRoomChanged(reg, s.rooms, room.id)
      && room.id in s.rooms.data
      && SameShell(room, s.rooms.data[room.id])
      && s.rooms.data[room.id].players.data == room.players.data[key := room.players.data[key].(name := Trim(newName))]
      && s.events == [RoomUpdateEvent(s.rooms.data[room.id])]
  {
    PlayerRoomStored(reg, client, room);
  }

  /** A blank name, or an ADMIN naming a connection that is not seated, changes nothing and sends nothing. */
  lemma ChangeNameNoOp(reg: Registry, client: PlayerId, targetId: PlayerId, newName: string, room: GatewayRoom)
    requires PlayerRoom(reg, client) == Some(room)
    requires Trim(newName) == "" || RenameTarget(room, client, targetId) !in room.players.data
    ensures OnChangeName(reg, client, targetId, newName) == Step(reg, [])
  {
  }

  /** A non-ADMIN renames only itself, whatever `targetId` it sends. */
  lemma ChangeNameSelfOnly(reg: Registry, client: PlayerId, targetId: PlayerId, newName: string, room: GatewayRoom)
    requires WellFormed(reg) && PlayerRoom(reg, client) == Some(room) && !IsAdminIn(room, client)
    ensures var s := OnChangeName(reg, client, targetId, newName);
      && OnlyRoomChanged(reg, s.rooms, room.id)
      && room.id in s.rooms.data
      && forall k | k in room.players.data && k != client ::
           k in s.rooms.data[room.id].players.data && s.rooms.data[room.id].players.data[k] == room.players.data[k]
  {
    PlayerRoomStored(reg, client, room);
    var s := OnChangeName(reg, client, targetId, newName);
    if s.rooms != reg {
      var room' := room.(players := JsMap.Set(room.players, client, room.players.data[client].(name := Trim(newName))));
      assert s.rooms == JsMap.Set(reg, room.id, room');
      ReplaceOnlyChanges(reg, room.id, room');
    }
  }

  // ----- status transitions -----

  /** revealCards by the room's ADMIN sets REVEAL and touches no player and no other room. */
  lemma RevealTouchesNoPlayer(reg: Registry, client: PlayerId, roomId: RoomId)
    requires roomId in reg.data && IsAdminIn(reg.data[roomId], client)
    ensures var s := OnRevealCards(reg, client, roomId);
      && OnlyRoomChanged(reg, s.rooms, roomId)
      && roomId in s.rooms.data
      && s.rooms.data[roomId] == reg.data[roomId].(status := Reveal)
      && s.events == [RoomUpdateEvent(s.rooms.data[roomId])]
  {
  }

  /**
   * reset by the room's ADMIN sets VOTING and every player's choice to
   * `false`, keeping every other field of every player.
   */
  lemma ResetClearsChoices(reg: Registry, client: PlayerId, roomId: RoomId)
    requires roomId in reg.data && IsAdminIn(reg.data[roomId], client)
    ensures var room, s := reg.data[roomId], OnReset(reg, client, roomId);
      && roomId in s.rooms.data
      && var room' := s.rooms.data[roomId];
      && room'.id == room.id && room'.status == Voting
      && room'.players.keys == room.players.keys
      && room'.players.data.Keys == room.players.data.Keys
      && (forall k | k in room'.players.data ::
            room'.players.data[k].choice == Flag(false) && room'.players.data[k].(choice := room.players.data[k].choice) == room.players.data[k])
  {
    var room := reg.data[roomId];
    var room' := room.(players := ClearChoices(room.players), status := Voting);
    assert OnReset(reg, client, roomId) == Step(JsMap.Set(reg, roomId, room'), [RoomUpdateEvent(room')]);
  }

  /** The same reset touches no other room and tells the room's group. */
  lemma ResetKeepsRest(reg: Registry, client: PlayerId, roomId: RoomId)
    requires roomId in reg.data && IsAdminIn(reg.data[roomId], client)
    ensures var s := OnReset(reg, client, roomId);
      && OnlyRoomChanged(reg, s.rooms, roomId)
      && roomId in s.rooms.data
      && s.events == [RoomUpdateEvent(s.rooms.data[roomId])]
  {
    var room := reg.data[roomId];
    var room' := room.(players := ClearChoices(room.players), status := Voting);
    assert OnReset(reg, client, roomId) == Step(JsMap.Set(reg, roomId, room'), [RoomUpdateEvent(room')]);
    ReplaceOnlyChanges(reg, roomId, room');
  }

  /**
   * updateVotingStatus by an ADMIN on a seated target sets its `canVote`;
   * its choice is cleared unless the room is revealed; nothing else changes.
   */
  lemma UpdateVotingStatusEffect(reg: Registry, client: PlayerId, targetId: PlayerId, canVote: bool, room: GatewayRoom)
    requires WellFormed(reg) && PlayerRoom(reg, client) == Some(room)
    requires IsAdminIn(room, client) && targetId in room.players.data
    ensures var t, s := room.players.data[targetId], OnUpdateVotingStatus(reg, client, targetId, canVote);
      && OnlyRoomChanged(reg, s.rooms, room.id)
      && room.id in s.rooms.data
      && SameShell(room, s.rooms.data[room.id])
      && s.rooms.data[room.id].players.data
           == room.players.data[targetId := t.(canVote := canVote, choice := if room.status == Reveal then t.choice else Flag(false))]
      && s.events == [RoomUpdateEvent(s.rooms.data[room.id])]
  {
    PlayerRoomStored(reg, client, room);
    var t := room.players.data[targetId];
    var t' := t.(canVote := canVote, choice := if room.status != Reveal then Flag(false) else t.choice);
    var room' := room.(players := JsMap.Set(room.players, targetId, t'));
    assert OnUpdateVotingStatus(reg, client, targetId, canVote) == Step(JsMap.Set(reg, room.id, room'), [RoomUpdateEvent(room')]);
    ReplaceOnlyChanges(reg, room.id, room');
  }

  /** An ADMIN naming a connection not seated in its room hears "Player not found"; nothing changes. */
  lemma UpdateVotingStatusMissingTarget(reg: Registry, client: PlayerId, targetId: PlayerId, canVote: bool, room: GatewayRoom)
    requires PlayerRoom(reg, client) == Some(room) && IsAdminIn(room, client) && targetId !in room.players.data
    ensures OnUpdateVotingStatus(reg, client, targetId, canVote) == Step(reg, [ErrorTo(client, "Player not found")])
  {
  }

  // ----- transferAdmin -----

  /**
   * A transfer by the ADMIN to a seated target leaves the target as the
   * room's one ADMIN: the old ADMIN becomes COMMON unless it named itself.
   */
  lemma TransferAdminSwaps(reg: Registry, client: PlayerId, targetId: PlayerId, room: GatewayRoom)
    requires WellFormed(reg) && PlayerRoom(reg, client) == Some(room)
    requires IsAdminIn(room, client) && targetId != "" && targetId in room.players.data
    ensures var s := OnTransferAdmin(reg, client, targetId);
      && room.id in s.rooms.data
      && IsAdminIn(s.rooms.data[room.id], targetId)
      && (forall a | a != targetId :: !IsAdminIn(s.rooms.data[room.id], a))
  {
    PlayerRoomStored(reg, client, room);
    SoleAdmin(room, client);
    var demoted := JsMap.Set(room.players, client, room.players.data[client].(role := Common));
    var room' := room.(players := JsMap.Set(demoted, targetId, room.players.data[targetId].(role := Admin)));
    assert OnTransferAdmin(reg, client, targetId) == Step(JsMap.Set(reg, room.id, room'), [RoomUpdateEvent(room')]);
    forall a | a != targetId ensures !IsAdminIn(room', a) {
      if a != client {
        assert !IsAdminIn(room, a);
      }
    }
  }

  /** The same transfer changes nothing but roles: same seats in the same order, same other fields. */
  lemma TransferAdminKeepsRest(reg: Registry, client: PlayerId, targetId: PlayerId, room: GatewayRoom)
    requires WellFormed(reg) && PlayerRoom(reg, client) == Some(room)
    requires IsAdminIn(room, client) && targetId != "" && targetId in room.players.data
    ensures var s := OnTransferAdmin(reg, client, targetId);
      && room.id in s.rooms.data
      && SameShell(room, s.rooms.data[room.id])
      && s.rooms.data[room.id].players.data.Keys == room.players.data.Keys
      && (forall k | k in room.players.data ::
            s.rooms.data[room.id].players.data[k].(role := room.players.data[k].role) == room.players.data[k])
  {
    PlayerRoomStored(reg, client, room);
    var demoted := JsMap.Set(room.players, client, room.players.data[client].(role := Common));
    var room' := room.(players := JsMap.Set(demoted, targetId, room.players.data[targetId].(role := Admin)));
    assert OnTransferAdmin(reg, client, targetId) == Step(JsMap.Set(reg, room.id, room'), [RoomUpdateEvent(room')]);
    forall k | k in room.players.data ensures room'.players.data[k].(role := room.players.data[k].role) == room.players.data[k] {
      if k != targetId && k != client {
        assert room'.players.data[k] == room.players.data[k];
      }
    }
  }

  /** The same transfer changes no other room and sends the room's group the new snapshot. */
  lemma TransferAdminPublishes(reg: Registry, client: PlayerId, targetId: PlayerId, room: GatewayRoom)
    requires WellFormed(reg) && PlayerRoom(reg, client) == Some(room)
    requires IsAdminIn(room, client) && targetId != "" && targetId in room.players.data
    ensures var s := OnTransferAdmin(reg, client, targetId);
      && OnlyRoomChanged(reg, s.rooms, room.id)
      && room.id in s.rooms.data
      && s.events == [RoomUpdateEvent(s.rooms.data[room.id])]
  {
    PlayerRoomStored(reg, client, room);
    var demoted := JsMap.Set(room.players, client, room.players.data[client].(role := Common));
    var room' := room.(players := JsMap.Set(demoted, targetId, room.players.data[targetId].(role := Admin)));
    assert OnTransferAdmin(reg, client, targetId) == Step(JsMap.Set(reg, room.id, room'), [RoomUpdateEvent(room')]);
    ReplaceOnlyChanges(reg, room.id, room');
  }

  /** A transfer by a non-ADMIN, to nobody, or to a connection not seated, changes nothing and sends nothing. */
  lemma TransferAdminIgnored(reg: Registry, client: PlayerId, targetId: PlayerId, room: GatewayRoom)
    requires PlayerRoom(reg, client) == Some(room)
    requires targetId == "" || !IsAdminIn(room, client) || targetId !in room.players.data
    ensures OnTransferAdmin(reg, client, targetId) == Step(reg, [])
  {
  }

  // ----- chooseCard -----

  /**
   * chooseCard does nothing when the choice is falsy (`0` or `false`), the
   * room is revealed, the caller may not vote, or the choice is unchanged.
   */
  lemma ChooseCardIgnored(reg: Registry, client: PlayerId, choice: Choice, room: GatewayRoom)
    requires WellFormed(reg) && PlayerRoom(reg, client) == Some(room)
    requires client in room.players.data
    requires !Truthy(choice) || room.status == Reveal || !room.players.data[client].canVote || room.players.data[client].choice == choice
    ensures OnChooseCard(reg, client, choice) == Step(reg, [])
  {
  }

  /** Otherwise the caller's choice becomes `choice`, nothing else changes, and the room is told. */
  lemma ChooseCardRecords(reg: Registry, client: PlayerId, choice: Choice, room: GatewayRoom)
    requires WellFormed(reg) && PlayerRoom(reg, client) == Some(room)
    requires Truthy(choice) && room.status == Voting && client in room.players.data
    requires room.players.data[client].canVote && room.players.data[client].choice != choice
    ensures var s := OnChooseCard(reg, client, choice);
      && OnlyRoomChanged(reg, s.rooms, room.id)
      && room.id in s.rooms.data
      && SameShell(room, s.rooms.data[room.id])
      && s.rooms.data[room.id].players.data == room.players.data[client := room.players.data[client].(choice := choice)]
      && s.events == [RoomUpdateEvent(s.rooms.data[room.id])]
  {
    PlayerRoomStored(reg, client, room);
  }

  /** Choosing the same card twice is choosing it once: the repeat changes nothing and sends nothing. */
  lemma ChooseCardIdempotent(reg: Registry, client: PlayerId, choice: Choice)
    requires WellFormed(reg)
    ensures var first := OnChooseCard(reg, client, choice);
      OnChooseCard(first.rooms, client, choice) == Step(first.rooms, [])
  {
    var first := OnChooseCard(reg, client, choice);
    match PlayerRoom(reg, client)
    case None =>
    case Some(room) =>
      PlayerRoomStored(reg, client, room);
      if Truthy(choice) && room.status != Reveal && room.players.data[client].canVote && room.players.data[client].choice != choice {
        var room' := room.(players := JsMap.Set(room.players, client, room.players.data[client].(choice := choice)));
        assert first.rooms == JsMap.Set(reg, room.id, room');
        PlayerRoomAfterReplace(reg, client, room, room');
      }
  }
}
