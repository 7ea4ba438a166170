/**
 * The gateway's socket handlers as transitions: each takes the registry
 * (`roomMap`) and the event's inputs and gives the new registry together with
 * the events the handler emits, in emission order. Class Gateway.PokerGateway
 * performs the same steps in place and is proved to agree with these.
 */
module GatewayHandlers {
  import opened Wrappers
  import opened Rooms
  import opened GatewayTypes
  import opened JsString
  import opened Snapshots
  import JsMap

  datatype Step = Step(rooms: Registry, events: seq<Event>)

  /** `client.emit('error', message)` */
  function ErrorTo(client: PlayerId, message: string): Event {
    Event(Caller(client), "error", Str(message))
  }

  /** `roomUpdate(room)`: the snapshot published to the room's group. */
  function RoomUpdateEvent(room: GatewayRoom): Event {
    Event(RoomGroup(room.id), "roomUpdate", Snap(SnapshotOf(room)))
  }

  /** `getPlayerRoom(playerId)`: the first room, in registry order, that seats the player. */
  function PlayerRoom(reg: Registry, playerId: PlayerId): Option<GatewayRoom> {
    FirstRoomWith(JsMap.Values(reg), playerId)
  }

  /** `handleDisconnect` */
  function OnDisconnect(reg: Registry, client: PlayerId): Step {
    match PlayerRoom(reg, client)
    case None => Step(reg, [])
    case Some(room) =>
      var wasAdmin := IsAdminIn(room, client);
      var left := room.(players := JsMap.Delete(room.players, client));
      var reg' := JsMap.Set(reg, room.id, left);
      if wasAdmin then
        Step(JsMap.Delete(reg', room.id), [Event(RoomGroup(room.id), "adminDisconnected", NoPayload)])
      else
        Step(reg', [Event(RoomGroup(room.id), "playerLeft", Str(client))])
  }

  /** `handleCreateRoom`, with `roomId` the value `randomUUID()` returned. */
  function OnCreateRoom(reg: Registry, client: PlayerId, roomId: RoomId): Step {
    Step(JsMap.Set(reg, roomId, NewRoom(roomId)), [Event(Caller(client), "newRoom", Str(roomId))])
  }

  /** The player `joinRoom` seats; `None` stands for a null or undefined name. */
  function Joiner(client: PlayerId, playerName: Option<string>, isFirstPlayer: bool): Player {
    Player(client,
           if playerName.Some? then playerName.value else "guest",
           true,
           Flag(false),
           if isFirstPlayer then Admin else Common)
  }

  /** `handleJoinRoom` */
  function OnJoinRoom(reg: Registry, client: PlayerId, roomId: RoomId, playerName: Option<string>): Step {
    match JsMap.Get(reg, roomId)
    case None => Step(reg, [ErrorTo(client, "Room not found")])
    case Some(room) =>
      var joiner := Joiner(client, playerName, JsMap.Size(room.players) == 0);
      var room' := room.(players := JsMap.Set(room.players, client, joiner));
      Step(JsMap.Set(reg, roomId, room'), [RoomUpdateEvent(room')])
  }

  /** `handleKickPlayer` */
  function OnKickPlayer(reg: Registry, client: PlayerId, targetId: PlayerId): Step {
    match PlayerRoom(reg, client)
    case None => Step(reg, [])
    case Some(room) =>
      if IsAdminIn(room, client) && room.players.data[client].id != targetId then
        if JsMap.Has(room.players, targetId) then
          var room' := room.(players := JsMap.Delete(room.players, targetId));
          Step(JsMap.Set(reg, room.id, room'), [Event(RoomGroup(room.id), "playerKicked", Str(targetId))])
        else
          Step(reg, [ErrorTo(client, "Player not found")])
      else
        Step(reg, [ErrorTo(client, "Not authorized")])
  }

  /**
   * Whose name `changeName` edits: the caller's own, unless the caller is
   * ADMIN and names someone else.
   */
  function RenameTarget(room: GatewayRoom, client: PlayerId, targetId: PlayerId): PlayerId {
    if targetId != client && IsAdminIn(room, client) then targetId else client
  }

  /** `handleChangeName` */
  function OnChangeName(reg: Registry, client: PlayerId, targetId: PlayerId, newName: string): Step {
    match PlayerRoom(reg, client)
    case None => Step(reg, [])
    case Some(room) =>
      var key := RenameTarget(room, client, targetId);
      var name := Trim(newName);
      if key in room.players.data && name != "" then
        var room' := room.(players := JsMap.Set(room.players, key, room.players.data[key].(name := name)));
        Step(JsMap.Set(reg, room.id, room'), [RoomUpdateEvent(room')])
      else
        Step(reg, [])
  }

  /** `handleUpdateVotingStatus` */
  function OnUpdateVotingStatus(reg: Registry, client: PlayerId, targetId: PlayerId, canVote: bool): Step {
    match PlayerRoom(reg, client)
    case None => Step(reg, [])
    case Some(room) =>
      if IsAdminIn(room, client) then
        match JsMap.Get(room.players, targetId)
        case Some(target) =>
          var target' := target.(canVote := canVote,
                                 choice := if room.status != Reveal then Flag(false) else target.choice);
          var room' := room.(players := JsMap.Set(room.players, targetId, target'));
          Step(JsMap.Set(reg, room.id, room'), [RoomUpdateEvent(room')])
        case None => Step(reg, [ErrorTo(client, "Player not found")])
      else
        Step(reg, [ErrorTo(client, "Not authorized")])
  }

  /** `handleTransferAdmin`; the empty string is the only falsy `targetId`. */
  function OnTransferAdmin(reg: Registry, client: PlayerId, targetId: PlayerId): Step {
    match PlayerRoom(reg, client)
    case None => Step(reg, [])
    case Some(room) =>
      if targetId == "" || !IsAdminIn(room, client) || targetId !in room.players.data then
        Step(reg, [])
      else
        var newAdmin := room.players.data[targetId];
        var demoted := JsMap.Set(room.players, client, room.players.data[client].(role := Common));
        var room' := room.(players := JsMap.Set(demoted, targetId, newAdmin.(role := Admin)));
        Step(JsMap.Set(reg, room.id, room'), [RoomUpdateEvent(room')])
  }

  /** `handleChooseCard` */
  function OnChooseCard(reg: Registry, client: PlayerId, choice: Choice): Step {
    match PlayerRoom(reg, client)
    case None => Step(reg, [])
    case Some(room) =>
      if !Truthy(choice) || room.status == Reveal then
        Step(reg, [])
      else if client in room.players.data && room.players.data[client].canVote
              && room.players.data[client].choice != choice then
        var room' := room.(players := JsMap.Set(room.players, client, room.players.data[client].(choice := choice)));
        Step(JsMap.Set(reg, room.id, room'), [RoomUpdateEvent(room')])
      else
        Step(reg, [])
  }

  /** Every player's choice back to `false`, nothing else touched (`players.forEach`). */
  function ClearChoices(players: JsMap.OrderedMap<PlayerId, Player>): (r: JsMap.OrderedMap<PlayerId, Player>)
    ensures r.keys == players.keys && r.data.Keys == players.data.Keys
    ensures forall k | k in r.data :: r.data[k] == players.data[k].(choice := Flag(false))
  {
    JsMap.Entries(players.keys, map k | k in players.data :: players.data[k].(choice := Flag(false)))
  }

  /** `handleResetCards`: the room is the one named in the message, not the caller's. */
  function OnReset(reg: Registry, client: PlayerId, roomId: RoomId): Step {
    match JsMap.Get(reg, roomId)
    case None => Step(reg, [])
    case Some(room) =>
      if IsAdminIn(room, client) then
        var room' := room.(players := ClearChoices(room.players), status := Voting);
        Step(JsMap.Set(reg, roomId, room'), [RoomUpdateEvent(room')])
      else
        Step(reg, [ErrorTo(client, "Not authorized")])
  }

  /** `handleRevealCards`: the room is the one named in the message, not the caller's. */
  function OnRevealCards(reg: Registry, client: PlayerId, roomId: RoomId): Step {
    match JsMap.Get(reg, roomId)
    case None => Step(reg, [])
    case Some(room) =>
      if IsAdminIn(room, client) then
        var room' := room.(status := Reveal);
        Step(JsMap.Set(reg, roomId, room'), [RoomUpdateEvent(room')])
      else
        Step(reg, [ErrorTo(client, "Not authorized")])
  }

  /** What reaches the gateway from one connection: its disconnect, or one subscribed message. */
  datatype Inbound =
    | Disconnect(client: PlayerId)
    | CreateRoom(client: PlayerId, freshId: RoomId)
    | JoinRoom(client: PlayerId, roomId: RoomId, playerName: Option<string>)
    | KickPlayer(client: PlayerId, targetId: PlayerId)
    | ChangeName(client: PlayerId, targetId: PlayerId, newName: string)
    | UpdateVotingStatus(client: PlayerId, targetId: PlayerId, canVote: bool)
    | TransferAdmin(client: PlayerId, targetId: PlayerId)
    | ChooseCard(client: PlayerId, choice: Choice)
    | Reset(client: PlayerId, roomId: RoomId)
    | RevealCards(client: PlayerId, roomId: RoomId)

  /** Routing of an inbound event to its handler (`@SubscribeMessage` / `OnGatewayDisconnect`). */
  function Handle(reg: Registry, m: Inbound): Step {
    match m
    case Disconnect(c) => OnDisconnect(reg, c)
    case CreateRoom(c, id) => OnCreateRoom(reg, c, id)
    case JoinRoom(c, id, name) => OnJoinRoom(reg, c, id, name)
    case KickPlayer(c, t) => OnKickPlayer(reg, c, t)
    case ChangeName(c, t, name) => OnChangeName(reg, c, t, name)
    case UpdateVotingStatus(c, t, v) => OnUpdateVotingStatus(reg, c, t, v)
    case TransferAdmin(c, t) => OnTransferAdmin(reg, c, t)
    case ChooseCard(c, ch) => OnChooseCard(reg, c, ch)
    case Reset(c, id) => OnReset(reg, c, id)
    case RevealCards(c, id) => OnRevealCards(reg, c, id)
  }

  /** Events handled one at a time, each to completion, in arrival order. */
  function Run(reg: Registry, ms: seq<Inbound>): Step
    decreases |ms|
  {
    if ms == [] then Step(reg, [])
    else
      var first := Handle(reg, ms[0]);
      var rest := Run(first.rooms, ms[1..]);
      Step(rest.rooms, first.events + rest.events)
  }
}
