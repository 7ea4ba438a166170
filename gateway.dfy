/**
 * The `PokerGateway` object: its `roomMap` field, updated in place by each
 * socket handler, and the events it emits, appended to `outbox` in emission
 * order. Each handler is proved to leave exactly the registry and the events
 * that the matching transition of GatewayHandlers gives, and to keep the
 * registry well formed (at most one ADMIN per room).
 */
module Gateway {
  import opened Wrappers
  import opened Rooms
  import opened GatewayTypes
  import opened GatewayHandlers
  import opened Snapshots
  import opened JsString
  import opened AdminInvariant
  import JsMap

  class PokerGateway {
    var roomMap: Registry
    var outbox: seq<Event>

    ghost predicate Valid()
      reads this
    {
      WellFormed(roomMap)
    }

    /** `private roomMap = new Map()`; nothing has been emitted yet. */
    constructor ()
      ensures Valid()
      ensures roomMap == JsMap.Empty() && outbox == []
    {
      roomMap := JsMap.Empty();
      outbox := [];
    }

    /** `getPlayerRoom`: the for-of scan over `roomMap.values()`, returning at the first hit. */
    method GetPlayerRoom(playerId: PlayerId) returns (room: Option<GatewayRoom>)
      ensures room == PlayerRoom(roomMap, playerId)
    {
      var rooms := JsMap.Values(roomMap);
      var i := 0;
      while i < |rooms|
        invariant 0 <= i <= |rooms|
        invariant FirstRoomWith(rooms[i..], playerId) == FirstRoomWith(rooms, playerId)
      {
        if Seats(rooms[i], playerId) {
          return Some(rooms[i]);
        }
        assert rooms[i..][1..] == rooms[i + 1..];
        i := i + 1;
      }
      return None;
    }

    /**
     * The object `roomUpdate` builds: one pass over the players, each ADMIN
     * put in front (`unshift`), every other player appended (`push`).
     */
    method BuildSnapshot(room: GatewayRoom) returns (snap: RoomSnapshot)
      ensures snap == SnapshotOf(room)
    {
      var vals := JsMap.Values(room.players);
      var st := room.status;
      var players: seq<SnapshotPlayer> := [];
      var i := 0;
      while i < |vals|
        invariant 0 <= i <= |vals|
        invariant players == Listed(st, vals[..i])
      {
        var player := vals[i];
        var hideChoice := Truthy(player.choice);
        var newPlayer := SnapshotPlayer(player.id, player.name, player.canVote,
                                        if st == Reveal then player.choice else Flag(hideChoice), player.role);
        ListedStep(st, vals, i);
        if player.role == Admin {
          players := [newPlayer] + players;
        } else {
          players := players + [newPlayer];
        }
        i := i + 1;
      }
      assert vals[..i] == vals;
      snap := RoomSnapshot(room.id, st, players);
    }

    /** `roomUpdate(room)`: the snapshot event it sends to the room's group. */
    method RoomUpdate(room: GatewayRoom) returns (e: Event)
      ensures e == RoomUpdateEvent(room)
    {
      var returnRoom := BuildSnapshot(room);
      e := Event(RoomGroup(room.id), "roomUpdate", Snap(returnRoom));
    }

    /**
     * The tail every room-editing handler shares: the edited room is the
     * stored one (the handler changed it in place), then `roomUpdate(room)`.
     */
    method StoreAndPublish(room: GatewayRoom)
      modifies this
      ensures roomMap == JsMap.Set(old(roomMap), room.id, room)
      ensures outbox == old(outbox) + [RoomUpdateEvent(room)]
    {
      roomMap := JsMap.Set(roomMap, room.id, room);
      var update := RoomUpdate(room);
      outbox := outbox + [update];
    }

    method HandleDisconnect(client: PlayerId)
      requires Valid()
      modifies this
      ensures Valid()
      ensures roomMap == OnDisconnect(old(roomMap), client).rooms
      ensures outbox == old(outbox) + OnDisconnect(old(roomMap), client).events
    {
      DisconnectKeepsWellFormed(roomMap, client);
      ghost var step := OnDisconnect(roomMap, client);
      var found := GetPlayerRoom(client);
      if found.None? {
        assert step == Step(roomMap, []);
        return;
      }
      var room := found.value;
      var player := JsMap.Get(room.players, client);
      var left := room.(players := JsMap.Delete(room.players, client));
      roomMap := JsMap.Set(roomMap, room.id, left);
      if player.Some? && player.value.role == Admin {
        assert step == Step(JsMap.Delete(roomMap, room.id), [Event(RoomGroup(room.id), "adminDisconnected", NoPayload)]);
        outbox := outbox + [Event(RoomGroup(room.id), "adminDisconnected", NoPayload)];
        roomMap := JsMap.Delete(roomMap, room.id);
      } else {
        assert step == Step(roomMap, [Event(RoomGroup(room.id), "playerLeft", Str(client))]);
        outbox := outbox + [Event(RoomGroup(room.id), "playerLeft", Str(client))];
      }
    }

    /** `handleCreateRoom`; `freshId` is the value `randomUUID()` returned. */
    method HandleCreateRoom(client: PlayerId, freshId: RoomId)
      requires Valid()
      modifies this
      ensures Valid()
      ensures roomMap == OnCreateRoom(old(roomMap), client, freshId).rooms
      ensures outbox == old(outbox) + OnCreateRoom(old(roomMap), client, freshId).events
    {
      CreateRoomKeepsWellFormed(roomMap, client, freshId);
      roomMap := JsMap.Set(roomMap, freshId, NewRoom(freshId));
      outbox := outbox + [Event(Caller(client), "newRoom", Str(freshId))];
    }

    method HandleJoinRoom(client: PlayerId, roomId: RoomId, playerName: Option<string>)
      requires Valid()
      modifies this
      ensures Valid()
      ensures roomMap == OnJoinRoom(old(roomMap), client, roomId, playerName).rooms
      ensures outbox == old(outbox) + OnJoinRoom(old(roomMap), client, roomId, playerName).events
    {
      JoinRoomKeepsWellFormed(roomMap, client, roomId, playerName);
      var found := JsMap.Get(roomMap, roomId);
      if found.Some? {
        var room := found.value;
        var isFirstPlayer := JsMap.Size(room.players) == 0;
        var newPlayer := Player(client, if playerName.Some? then playerName.value else "guest",
                                true, Flag(false), if isFirstPlayer then Admin else Common);
        room := room.(players := JsMap.Set(room.players, client, newPlayer));
        StoreAndPublish(room);
      } else {
        outbox := outbox + [Event(Caller(client), "error", Str("Room not found"))];
      }
    }

    method HandleKickPlayer(client: PlayerId, targetId: PlayerId)
      requires Valid()
      modifies this
      ensures Valid()
      ensures roomMap == OnKickPlayer(old(roomMap), client, targetId).rooms
      ensures outbox == old(outbox) + OnKickPlayer(old(roomMap), client, targetId).events
    {
      KickPlayerKeepsWellFormed(roomMap, client, targetId);
      ghost var step := OnKickPlayer(roomMap, client, targetId);
      var found := GetPlayerRoom(client);
      if found.None? {
        assert step == Step(roomMap, []);
        return;
      }
      var room := found.value;
      var admin := JsMap.Get(room.players, client);
      if admin.Some? && admin.value.role == Admin && admin.value.id != targetId {
        var targetPlayer := JsMap.Get(room.players, targetId);
        if targetPlayer.Some? {
          var rest := room.(players := JsMap.Delete(room.players, targetId));
          assert step == Step(JsMap.Set(roomMap, room.id, rest), [Event(RoomGroup(room.id), "playerKicked", Str(targetId))]);
          roomMap := JsMap.Set(roomMap, room.id, rest);
          outbox := outbox + [Event(RoomGroup(room.id), "playerKicked", Str(targetId))];
        } else {
          assert step == Step(roomMap, [ErrorTo(client, "Player not found")]);
          outbox := outbox + [Event(Caller(client), "error", Str("Player not found"))];
        }
      } else {
        assert step == Step(roomMap, [ErrorTo(client, "Not authorized")]);
        outbox := outbox + [Event(Caller(client), "error", Str("Not authorized"))];
      }
    }

    method HandleChangeName(client: PlayerId, targetId: PlayerId, newName: string)
      requires Valid()
      modifies this
      ensures Valid()
      ensures roomMap == OnChangeName(old(roomMap), client, targetId, newName).rooms
      ensures outbox == old(outbox) + OnChangeName(old(roomMap), client, targetId, newName).events
    {
      ChangeNameKeepsWellFormed(roomMap, client, targetId, newName);
      ghost var step := OnChangeName(roomMap, client, targetId, newName);
      var found := GetPlayerRoom(client);
      if found.None? {
        assert step == Step(roomMap, []);
        return;
      }
      var room := found.value;
      var key := RenameTarget(room, client, targetId);
      var player := JsMap.Get(room.players, key);
      var nameNoWhiteSpace := Trim(newName);
      if player.Some? && nameNoWhiteSpace != "" {
        var renamed := room.(players := JsMap.Set(room.players, key, player.value.(name := nameNoWhiteSpace)));
        assert step == Step(JsMap.Set(roomMap, room.id, renamed), [RoomUpdateEvent(renamed)]);
        StoreAndPublish(renamed);
      } else {
        assert step == Step(roomMap, []);
      }
    }

    method HandleUpdateVotingStatus(client: PlayerId, targetId: PlayerId, canVote: bool)
      requires Valid()
      modifies this
      ensures Valid()
      ensures roomMap == OnUpdateVotingStatus(old(roomMap), client, targetId, canVote).rooms
      ensures outbox == old(outbox) + OnUpdateVotingStatus(old(roomMap), client, targetId, canVote).events
    {
      UpdateVotingStatusKeepsWellFormed(roomMap, client, targetId, canVote);
      ghost var step := OnUpdateVotingStatus(roomMap, client, targetId, canVote);
      var found := GetPlayerRoom(client);
      if found.None? {
        assert step == Step(roomMap, []);
        return;
      }
      var room := found.value;
      var admin := JsMap.Get(room.players, client);
      if admin.Some? && admin.value.role == Admin {
        var targetPlayer := JsMap.Get(room.players, targetId);
        if targetPlayer.Some? {
          var target := targetPlayer.value.(canVote := canVote);
          if room.status != Reveal {
            target := target.(choice := Flag(false));
          }
          var updated := room.(players := JsMap.Set(room.players, targetId, target));
          assert step == Step(JsMap.Set(roomMap, room.id, updated), [RoomUpdateEvent(updated)]);
          StoreAndPublish(updated);
        } else {
          assert step == Step(roomMap, [ErrorTo(client, "Player not found")]);
          outbox := outbox + [Event(Caller(client), "error", Str("Player not found"))];
        }
      } else {
        assert step == Step(roomMap, [ErrorTo(client, "Not authorized")]);
        outbox := outbox + [Event(Caller(client), "error", Str("Not authorized"))];
      }
    }

    method HandleTransferAdmin(client: PlayerId, targetId: PlayerId)
      requires Valid()
      modifies this
      ensures Valid()
      ensures roomMap == OnTransferAdmin(old(roomMap), client, targetId).rooms
      ensures outbox == old(outbox) + OnTransferAdmin(old(roomMap), client, targetId).events
    {
      TransferAdminKeepsWellFormed(roomMap, client, targetId);
      var found := GetPlayerRoom(client);
      if found.None? || targetId == "" {
        return;
      }
      var room := found.value;
      var oldAdmin := JsMap.Get(room.players, client);
      if oldAdmin.Some? && oldAdmin.value.role == Admin {
        var newAdmin := JsMap.Get(room.players, targetId);
        if newAdmin.Some? {
          var players := JsMap.Set(room.players, client, oldAdmin.value.(role := Common));
          players := JsMap.Set(players, targetId, newAdmin.value.(role := Admin));
          room := room.(players := players);
          StoreAndPublish(room);
        }
      }
    }

    /** `handleChooseCard`; `choice` is whatever the message carried. */
    method HandleChooseCard(client: PlayerId, choice: Choice)
      requires Valid()
      modifies this
      ensures Valid()
      ensures roomMap == OnChooseCard(old(roomMap), client, choice).rooms
      ensures outbox == old(outbox) + OnChooseCard(old(roomMap), client, choice).events
    {
      ChooseCardKeepsWellFormed(roomMap, client, choice);
      ghost var step := OnChooseCard(roomMap, client, choice);
      var found := GetPlayerRoom(client);
      if found.None? || !Truthy(choice) || found.value.status == Reveal {
        assert step == Step(roomMap, []);
        return;
      }
      var room := found.value;
      var player := JsMap.Get(room.players, client);
      if player.Some? && player.value.canVote && player.value.choice != choice {
        var chosen := room.(players := JsMap.Set(room.players, client, player.value.(choice := choice)));
        assert step == Step(JsMap.Set(roomMap, room.id, chosen), [RoomUpdateEvent(chosen)]);
        StoreAndPublish(chosen);
      } else {
        assert step == Step(roomMap, []);
      }
    }

    /** `room.players.forEach((player) => { player.choice = false; })` */
    method ClearAllChoices(players: JsMap.OrderedMap<PlayerId, Player>) returns (cleared: JsMap.OrderedMap<PlayerId, Player>)
      ensures cleared == ClearChoices(players)
    {
      cleared := players;
      var keys := players.keys;
      var i := 0;
      while i < |keys|
        invariant 0 <= i <= |keys|
        invariant cleared.keys == keys && cleared.data.Keys == players.data.Keys
        invariant forall k | k in cleared.data ::
          cleared.data[k] == if k in keys[..i] then players.data[k].(choice := Flag(false)) else players.data[k]
      {
        var k := keys[i];
        cleared := JsMap.Set(cleared, k, cleared.data[k].(choice := Flag(false)));
        assert keys[..i + 1] == keys[..i] + [k];
        i := i + 1;
      }
      assert keys[..i] == keys;
    }

    /** `handleResetCards`: the `forEach` clears every choice, one player at a time. */
    method HandleResetCards(client: PlayerId, roomId: RoomId)
      requires Valid()
      modifies this
      ensures Valid()
      ensures roomMap == OnReset(old(roomMap), client, roomId).rooms
      ensures outbox == old(outbox) + OnReset(old(roomMap), client, roomId).events
    {
      ResetKeepsWellFormed(roomMap, client, roomId);
      var found := JsMap.Get(roomMap, roomId);
      if found.None? {
        return;
      }
      var room := found.value;
      var player := JsMap.Get(room.players, client);
      if player.Some? && player.value.role == Admin {
        var players := ClearAllChoices(room.players);
        room := room.(players := players, status := Voting);
        StoreAndPublish(room);
      } else {
        outbox := outbox + [Event(Caller(client), "error", Str("Not authorized"))];
      }
    }

    method HandleRevealCards(client: PlayerId, roomId: RoomId)
      requires Valid()
      modifies this
      ensures Valid()
      ensures roomMap == OnRevealCards(old(roomMap), client, roomId).rooms
      ensures outbox == old(outbox) + OnRevealCards(old(roomMap), client, roomId).events
    {
      RevealCardsKeepsWellFormed(roomMap, client, roomId);
      var found := JsMap.Get(roomMap, roomId);
      if found.None? {
        return;
      }
      var room := found.value;
      var admin := JsMap.Get(room.players, client);
      if admin.Some? && admin.value.role == Admin {
        room := room.(status := Reveal);
        StoreAndPublish(room);
      } else {
        outbox := outbox + [Event(Caller(client), "error", Str("Not authorized"))];
      }
    }
  }
}
