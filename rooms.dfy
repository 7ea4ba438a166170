/**
 * What the gateway's own declarations and the shared interfaces agree on: a
 * room has an id, a status and an insertion-ordered map from connection id to
 * player; the registry is a map from room id to room. The player record itself
 * differs between the two (see GatewayTypes and Interfaces), hence the type
 * parameter.
 */
module Rooms {
  import opened Wrappers
  import JsMap

  type RoomId = string
  type PlayerId = string

  datatype RoomStatus = Reveal | Voting

  datatype PlayerRole = Admin | Common

  datatype Room<P> = Room(id: RoomId, status: RoomStatus, players: JsMap.OrderedMap<PlayerId, P>)

  /** The room `createRoom` registers, in the gateway and in the store alike: VOTING, nobody seated. */
  function NewRoom<P>(roomId: RoomId): Room<P> {
    Room(roomId, Voting, JsMap.Empty())
  }

  /** `room.players.has(playerId)` */
  predicate Seats<P>(room: Room<P>, playerId: PlayerId) {
    JsMap.Has(room.players, playerId)
  }

  /**
   * The scan behind `getPlayerRoom`: walk the rooms in order and return the
   * first one that seats the player, or nothing when none does.
   */
  function FirstRoomWith<P>(rooms: seq<Room<P>>, playerId: PlayerId): Option<Room<P>> {
    if rooms == [] then None
    else if Seats(rooms[0], playerId) then Some(rooms[0])
    else FirstRoomWith(rooms[1..], playerId)
  }

  /**
   * What the scan finds: a room that seats the player and that no earlier
   * room precedes in seating it; nothing exactly when no room seats the player.
   */
  lemma {:induction false} FirstRoomWithFinds<P>(rooms: seq<Room<P>>, playerId: PlayerId)
    ensures FirstRoomWith(rooms, playerId).Some? ==> Seats(FirstRoomWith(rooms, playerId).value, playerId)
    ensures FirstRoomWith(rooms, playerId).Some? ==>
      exists i | 0 <= i < |rooms| :: rooms[i] == FirstRoomWith(rooms, playerId).value && (forall j | 0 <= j < i :: !Seats(rooms[j], playerId))
    ensures FirstRoomWith(rooms, playerId).None? <==> forall i | 0 <= i < |rooms| :: !Seats(rooms[i], playerId)
  {
    if rooms != [] && !Seats(rooms[0], playerId) {
      var rest := rooms[1..];
      FirstRoomWithFinds(rest, playerId);
      assert forall i | 0 <= i < |rest| :: rest[i] == rooms[i + 1];
      if FirstRoomWith(rest, playerId).Some? {
        var i :| 0 <= i < |rest| && rest[i] == FirstRoomWith(rest, playerId).value && (forall j | 0 <= j < i :: !Seats(rest[j], playerId));
        assert rooms[i + 1] == FirstRoomWith(rooms, playerId).value;
        forall j | 0 <= j < i + 1 ensures !Seats(rooms[j], playerId) {
          if j > 0 {
            assert rooms[j] == rest[j - 1];
          }
        }
      } else {
        forall i | 0 <= i < |rooms| ensures !Seats(rooms[i], playerId) {
          if i > 0 {
            assert rooms[i] == rest[i - 1];
          }
        }
      }
    }
  }

  /** The scan stops at the first seating room, whatever follows it. */
  lemma {:induction false} FirstRoomAt<P>(rooms: seq<Room<P>>, playerId: PlayerId, i: nat)
    requires i < |rooms| && Seats(rooms[i], playerId)
    requires forall j | 0 <= j < i :: !Seats(rooms[j], playerId)
    ensures FirstRoomWith(rooms, playerId) == Some(rooms[i])
  {
    if i > 0 {
      FirstRoomAt(rooms[1..], playerId, i - 1);
    }
  }
}
