/**
 * The gateway's own declarations: its player record (a `number | boolean`
 * choice and a role that every join sets), the registry of rooms, and what the
 * gateway sends out. Sending is not modelled as delivery: every `emit` becomes
 * one Event appended to an outbound log.
 */
module GatewayTypes {
  import opened Rooms
  import JsMap

  /** `number | boolean`; a number is a JavaScript number other than NaN. */
  datatype Choice = Num(n: real) | Flag(b: bool)

  /** JavaScript truthiness of a choice: `0` and `false` are falsy. */
  predicate Truthy(c: Choice) {
    match c
    case Num(n) => n != 0.0
    case Flag(b) => b
  }

  datatype Player = Player(id: PlayerId, name: string, canVote: bool, choice: Choice, role: PlayerRole)

  type GatewayRoom = Room<Player>

  /** The gateway's `roomMap`. */
  type Registry = JsMap.OrderedMap<RoomId, GatewayRoom>

  /** A player as published: the choice is masked unless the room is revealed. */
  datatype SnapshotPlayer = SnapshotPlayer(id: PlayerId, name: string, canVote: bool, choice: Choice, role: PlayerRole)

  /** The object `roomUpdate` publishes: the room with its players as a list. */
  datatype RoomSnapshot = RoomSnapshot(id: RoomId, status: RoomStatus, players: seq<SnapshotPlayer>)

  /** `client.emit` reaches the calling connection, `server.to(id)` / `server.in(id)` the room's group. */
  datatype Recipient = Caller(connection: PlayerId) | RoomGroup(room: RoomId)

  datatype Payload = NoPayload | Str(text: string) | Snap(snapshot: RoomSnapshot)

  datatype Event = Event(to: Recipient, name: string, payload: Payload)

  /** `player?.role === PlayerRoles.ADMIN` for the player seated under `id`. */
  predicate IsAdminIn(room: GatewayRoom, id: PlayerId) {
    id in room.players.data && room.players.data[id].role == Admin
  }

  /** No two seated players hold ADMIN. */
  ghost predicate AtMostOneAdmin(room: GatewayRoom) {
    forall a, b | IsAdminIn(room, a) && IsAdminIn(room, b) :: a == b
  }

  /** Every player is stored under its own id, and at most one is ADMIN. */
  ghost predicate RoomWellFormed(room: GatewayRoom) {
    && (forall k | k in room.players.data :: room.players.data[k].id == k)
    && AtMostOneAdmin(room)
  }

  /** Every room is stored under its own id and is well formed. */
  ghost predicate WellFormed(reg: Registry) {
    forall k | k in reg.data :: reg.data[k].id == k && RoomWellFormed(reg.data[k])
  }
}
