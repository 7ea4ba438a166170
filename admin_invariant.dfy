/**
 * Every handler keeps the registry well formed: rooms and players are stored
 * under their own ids, and no room ever has two ADMIN players. The invariant
 * is "at most one", not "exactly one": see HandlerProperties.RejoinDemotesAdmin.
 */
module AdminInvariant {
  import opened Wrappers
  import opened Rooms
  import opened GatewayTypes
  import opened GatewayHandlers
  import JsMap

  /** The room `getPlayerRoom` finds is the one stored under its id, and it seats the player. */
  lemma PlayerRoomStored(reg: Registry, playerId: PlayerId, room: GatewayRoom)
    requires WellFormed(reg) && PlayerRoom(reg, playerId) == Some(room)
    ensures room.id in reg.data && reg.data[room.id] == room
    ensures playerId in room.players.data
  {
    var rooms := JsMap.Values(reg);
    FirstRoomWithFinds(rooms, playerId);
    var i :| 0 <= i < |rooms| && rooms[i] == room && (forall j | 0 <= j < i :: !Seats(rooms[j], playerId));
    assert reg.keys[i] in reg.data;
  }

  /** Seating `p` under its own id keeps a room well formed unless it adds a second ADMIN. */
  lemma SeatKeepsRoom(room: GatewayRoom, k: PlayerId, p: Player)
    requires RoomWellFormed(room) && p.id == k
    requires p.role == Admin ==> forall a | IsAdminIn(room, a) :: a == k
    ensures RoomWellFormed(room.(players := JsMap.Set(room.players, k, p)))
  {
    var room' := room.(players := JsMap.Set(room.players, k, p));
    forall a, b | IsAdminIn(room', a) && IsAdminIn(room', b) ensures a == b {
      if a != k && b != k {
        assert IsAdminIn(room, a) && IsAdminIn(room, b);
      } else if a != k {
        assert IsAdminIn(room, a);
      } else if b != k {
        assert IsAdminIn(room, b);
      }
    }
  }

  /** The ADMIN of a well-formed room is its only ADMIN. */
  lemma SoleAdmin(room: GatewayRoom, admin: PlayerId)
    requires RoomWellFormed(room) && IsAdminIn(room, admin)
    ensures forall a | a != admin :: !IsAdminIn(room, a)
  {
  }

  /** Updating a seated player without touching its id or role keeps a room well formed. */
  lemma RestampKeepsRoom(room: GatewayRoom, k: PlayerId, p: Player)
    requires RoomWellFormed(room) && k in room.players.data
    requires p.id == k && p.role == room.players.data[k].role
    ensures RoomWellFormed(room.(players := JsMap.Set(room.players, k, p)))
  {
    if p.role == Admin {
      SoleAdmin(room, k);
    }
    SeatKeepsRoom(room, k, p);
  }

  /** Replacing a stored room by a well-formed one under its id keeps the registry well formed. */
  lemma ReplaceKeepsWellFormed(reg: Registry, room: GatewayRoom)
    requires WellFormed(reg) && RoomWellFormed(room)
    ensures WellFormed(JsMap.Set(reg, room.id, room))
  {
  }

  lemma UnseatKeepsRoom(room: GatewayRoom, k: PlayerId)
    requires RoomWellFormed(room)
    ensures RoomWellFormed(room.(players := JsMap.Delete(room.players, k)))
  {
    var room' := room.(players := JsMap.Delete(room.players, k));
    forall a, b | IsAdminIn(room', a) && IsAdminIn(room', b) ensures a == b {
      assert IsAdminIn(room, a) && IsAdminIn(room, b);
    }
  }

  lemma DeleteKeepsWellFormed(reg: Registry, roomId: RoomId)
    requires WellFormed(reg)
    ensures WellFormed(JsMap.Delete(reg, roomId))
  {
  }

  lemma DisconnectKeepsWellFormed(reg: Registry, client: PlayerId)
    requires WellFormed(reg)
    ensures WellFormed(OnDisconnect(reg, client).rooms)
  {
    if PlayerRoom(reg, client).Some? {
      var room := PlayerRoom(reg, client).value;
      PlayerRoomStored(reg, client, room);
      UnseatKeepsRoom(room, client);
      var left := room.(players := JsMap.Delete(room.players, client));
      ReplaceKeepsWellFormed(reg, left);
      var reg' := JsMap.Set(reg, room.id, left);
      DeleteKeepsWellFormed(reg', room.id);
      if IsAdminIn(room, client) {
        assert OnDisconnect(reg, client).rooms == JsMap.Delete(reg', room.id);
      } else {
        assert OnDisconnect(reg, client).rooms == reg';
      }
    }
  }

  lemma CreateRoomKeepsWellFormed(reg: Registry, client: PlayerId, roomId: RoomId)
    requires WellFormed(reg)
    ensures WellFormed(OnCreateRoom(reg, client, roomId).rooms)
  {
  }

  lemma JoinRoomKeepsWellFormed(reg: Registry, client: PlayerId, roomId: RoomId, playerName: Option<string>)
    requires WellFormed(reg)
    ensures WellFormed(OnJoinRoom(reg, client, roomId, playerName).rooms)
  {
    if roomId in reg.data {
      var room := reg.data[roomId];
      var joiner := Joiner(client, playerName, JsMap.Size(room.players) == 0);
      SeatKeepsRoom(room, client, joiner);
      var room' := room.(players := JsMap.Set(room.players, client, joiner));
      ReplaceKeepsWellFormed(reg, room');
      assert OnJoinRoom(reg, client, roomId, playerName).rooms == JsMap.Set(reg, room.id, room');
    }
  }

  lemma KickPlayerKeepsWellFormed(reg: Registry, client: PlayerId, targetId: PlayerId)
    requires WellFormed(reg)
    ensures WellFormed(OnKickPlayer(reg, client, targetId).rooms)
  {
    if PlayerRoom(reg, client).Some? {
      var room := PlayerRoom(reg, client).value;
      PlayerRoomStored(reg, client, room);
      if IsAdminIn(room, client) && room.players.data[client].id != targetId && targetId in room.players.data {
        UnseatKeepsRoom(room, targetId);
        var room' := room.(players := JsMap.Delete(room.players, targetId));
        ReplaceKeepsWellFormed(reg, room');
        assert OnKickPlayer(reg, client, targetId).rooms == JsMap.Set(reg, room.id, room');
      } else {
        assert OnKickPlayer(reg, client, targetId).rooms == reg;
      }
    }
  }

  lemma ChangeNameKeepsWellFormed(reg: Registry, client: PlayerId, targetId: PlayerId, newName: string)
    requires WellFormed(reg)
    ensures WellFormed(OnChangeName(reg, client, targetId, newName).rooms)
  {
    if PlayerRoom(reg, client).Some? {
      var room := PlayerRoom(reg, client).value;
      PlayerRoomStored(reg, client, room);
      var key := RenameTarget(room, client, targetId);
      var name := JsString.Trim(newName);
      if key in room.players.data && name != "" {
        var p := room.players.data[key].(name := name);
        RestampKeepsRoom(room, key, p);
        var room' := room.(players := JsMap.Set(room.players, key, p));
        ReplaceKeepsWellFormed(reg, room');
        assert OnChangeName(reg, client, targetId, newName).rooms == JsMap.Set(reg, room.id, room');
      }
    }
  }

  lemma UpdateVotingStatusKeepsWellFormed(reg: Registry, client: PlayerId, targetId: PlayerId, canVote: bool)
    requires WellFormed(reg)
    ensures WellFormed(OnUpdateVotingStatus(reg, client, targetId, canVote).rooms)
  {
    if PlayerRoom(reg, client).Some? {
      var room := PlayerRoom(reg, client).value;
      PlayerRoomStored(reg, client, room);
      if IsAdminIn(room, client) && targetId in room.players.data {
        var t := room.players.data[targetId];
        var t' := t.(canVote := canVote, choice := if room.status != Reveal then Flag(false) else t.choice);
        RestampKeepsRoom(room, targetId, t');
        var room' := room.(players := JsMap.Set(room.players, targetId, t'));
        ReplaceKeepsWellFormed(reg, room');
        assert OnUpdateVotingStatus(reg, client, targetId, canVote).rooms == JsMap.Set(reg, room.id, room');
      }
    }
  }

  lemma TransferAdminKeepsWellFormed(reg: Registry, client: PlayerId, targetId: PlayerId)
    requires WellFormed(reg)
    ensures WellFormed(OnTransferAdmin(reg, client, targetId).rooms)
  {
    if PlayerRoom(reg, client).Some? {
      var room := PlayerRoom(reg, client).value;
      PlayerRoomStored(reg, client, room);
      if targetId != "" && IsAdminIn(room, client) && targetId in room.players.data {
        var newAdmin := room.players.data[targetId];
        var demotedRoom := room.(players := JsMap.Set(room.players, client, room.players.data[client].(role := Common)));
        SeatKeepsRoom(room, client, room.players.data[client].(role := Common));
        SoleAdmin(room, client);
        forall a ensures !IsAdminIn(demotedRoom, a) {
          if a != client {
            assert !IsAdminIn(room, a);
          }
        }
        SeatKeepsRoom(demotedRoom, targetId, newAdmin.(role := Admin));
        var room' := demotedRoom.(players := JsMap.Set(demotedRoom.players, targetId, newAdmin.(role := Admin)));
        ReplaceKeepsWellFormed(reg, room');
        assert OnTransferAdmin(reg, client, targetId).rooms == JsMap.Set(reg, room.id, room');
      } else {
        assert OnTransferAdmin(reg, client, targetId).rooms == reg;
      }
    }
  }

  lemma ChooseCardKeepsWellFormed(reg: Registry, client: PlayerId, choice: Choice)
    requires WellFormed(reg)
    ensures WellFormed(OnChooseCard(reg, client, choice).rooms)
  {
    if PlayerRoom(reg, client).Some? {
      var room := PlayerRoom(reg, client).value;
      PlayerRoomStored(reg, client, room);
      var p := room.players.data[client].(choice := choice);
      RestampKeepsRoom(room, client, p);
      var room' := room.(players := JsMap.Set(room.players, client, p));
      ReplaceKeepsWellFormed(reg, room');
      if Truthy(choice) && room.status != Reveal && room.players.data[client].canVote && room.players.data[client].choice != choice {
        assert OnChooseCard(reg, client, choice).rooms == JsMap.Set(reg, room.id, room');
      }
    }
  }

  lemma ResetKeepsWellFormed(reg: Registry, client: PlayerId, roomId: RoomId)
    requires WellFormed(reg)
    ensures WellFormed(OnReset(reg, client, roomId).rooms)
  {
    if roomId in reg.data {
      var room := reg.data[roomId];
      var room' := room.(players := ClearChoices(room.players), status := Voting);
      forall a, b | IsAdminIn(room', a) && IsAdminIn(room', b) ensures a == b {
        assert IsAdminIn(room, a) && IsAdminIn(room, b);
      }
      ReplaceKeepsWellFormed(reg, room');
      if IsAdminIn(room, client) {
        assert OnReset(reg, client, roomId).rooms == JsMap.Set(reg, room.id, room');
      }
    }
  }

  lemma RevealCardsKeepsWellFormed(reg: Registry, client: PlayerId, roomId: RoomId)
    requires WellFormed(reg)
    ensures WellFormed(OnRevealCards(reg, client, roomId).rooms)
  {
    if roomId in reg.data {
      var room := reg.data[roomId];
      var room' := room.(status := Reveal);
      forall a, b | IsAdminIn(room', a) && IsAdminIn(room', b) ensures a == b {
        assert IsAdminIn(room, a) && IsAdminIn(room, b);
      }
      ReplaceKeepsWellFormed(reg, room');
      if IsAdminIn(room, client) {
        assert OnRevealCards(reg, client, roomId).rooms == JsMap.Set(reg, room.id, room');
      }
    }
  }

  /** Whatever arrives, the handler leaves every room with at most one ADMIN. */
  lemma HandleKeepsWellFormed(reg: Registry, m: Inbound)
    requires WellFormed(reg)
    ensures WellFormed(Handle(reg, m).rooms)
  {
    match m
    case Disconnect(c) => DisconnectKeepsWellFormed(reg, c);
    case CreateRoom(c, id) => CreateRoomKeepsWellFormed(reg, c, id);
    case JoinRoom(c, id, name) => JoinRoomKeepsWellFormed(reg, c, id, name);
    case KickPlayer(c, t) => KickPlayerKeepsWellFormed(reg, c, t);
    case ChangeName(c, t, name) => ChangeNameKeepsWellFormed(reg, c, t, name);
    case UpdateVotingStatus(c, t, v) => UpdateVotingStatusKeepsWellFormed(reg, c, t, v);
    case TransferAdmin(c, t) => TransferAdminKeepsWellFormed(reg, c, t);
    case ChooseCard(c, ch) => ChooseCardKeepsWellFormed(reg, c, ch);
    case Reset(c, id) => ResetKeepsWellFormed(reg, c, id);
    case RevealCards(c, id) => RevealCardsKeepsWellFormed(reg, c, id);
  }

  lemma {:induction false} RunKeepsWellFormed(reg: Registry, ms: seq<Inbound>)
    requires WellFormed(reg)
    ensures WellFormed(Run(reg, ms).rooms)
    decreases |ms|
  {
    if ms != [] {
      HandleKeepsWellFormed(reg, ms[0]);
      RunKeepsWellFormed(Handle(reg, ms[0]).rooms, ms[1..]);
    }
  }

  /** From the gateway's empty start, after any sequence of events, no room has two ADMINs. */
  lemma ReachableRoomsHaveAtMostOneAdmin(ms: seq<Inbound>)
    ensures forall k | k in Run(JsMap.Empty(), ms).rooms.data :: AtMostOneAdmin(Run(JsMap.Empty(), ms).rooms.data[k])
  {
    RunKeepsWellFormed(JsMap.Empty(), ms);
  }
}
