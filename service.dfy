/**
 * The room store behind the HTTP side: one insertion-ordered map from room id
 * to room. Rooms are values here; the in-place edit `removePlayerFromRoom`
 * makes to a stored room becomes storing the edited room under the same key.
 */
module Service {
  import opened Wrappers
  import opened Rooms
  import opened Interfaces
  import JsMap

  /**
   * What `removePlayerFromRoom` leaves in the store: the player is taken out
   * of the room, and the room itself goes once nobody is left in it.
   */
  function PlayerRemoved(m: JsMap.OrderedMap<RoomId, StoredRoom>, roomId: RoomId, playerId: PlayerId): JsMap.OrderedMap<RoomId, StoredRoom> {
    match JsMap.Get(m, roomId)
    case None => m
    case Some(room) =>
      var left := room.(players := JsMap.Delete(room.players, playerId));
      if JsMap.Size(left.players) == 0 then JsMap.Delete(m, roomId) else JsMap.Set(m, roomId, left)
  }

  /**
   * An unknown room id changes nothing; the room survives exactly when
   * someone besides the player is seated, and then holds everyone but the
   * player; every other room is kept, in its place.
   */
  lemma PlayerRemovedEffect(m: JsMap.OrderedMap<RoomId, StoredRoom>, roomId: RoomId, playerId: PlayerId)
    ensures roomId !in m.data ==> PlayerRemoved(m, roomId, playerId) == m
    ensures roomId in PlayerRemoved(m, roomId, playerId).data
        <==> roomId in m.data && m.data[roomId].players.data - {playerId} != map[]
    ensures roomId in PlayerRemoved(m, roomId, playerId).data ==>
      var room, room' := m.data[roomId], PlayerRemoved(m, roomId, playerId).data[roomId];
      && room'.id == room.id && room'.status == room.status
      && room'.players.data == room.players.data - {playerId}
      && room'.players.keys == JsMap.Without(room.players.keys, playerId)
    ensures forall k | k != roomId :: (k in PlayerRemoved(m, roomId, playerId).data <==> k in m.data)
    ensures forall k | k != roomId && k in m.data :: PlayerRemoved(m, roomId, playerId).data[k] == m.data[k]
    ensures PlayerRemoved(m, roomId, playerId).keys == if roomId in PlayerRemoved(m, roomId, playerId).data then m.keys else JsMap.Without(m.keys, roomId)
  {
  }

  class PokerService {
    var roomMap: JsMap.OrderedMap<RoomId, StoredRoom>

    /** Every room is stored under its own id; each operation below keeps this. */
    ghost predicate Valid()
      reads this
    {
      forall k | k in roomMap.data :: roomMap.data[k].id == k
    }

    constructor()
      ensures Valid()
      ensures roomMap.keys == [] && roomMap.data == map[]
    {
      roomMap := JsMap.Empty();
    }

    /**
     * `createRoom`, with `freshId` the value `randomUUID()` returned: the new
     * room is registered under its id and every other room is kept.
     */
    method CreateRoom(freshId: RoomId) returns (roomId: RoomId)
      requires Valid()
      modifies this
      ensures Valid()
      ensures roomId == freshId
      ensures roomMap == JsMap.Set(old(roomMap), freshId, NewRoom(freshId))
      ensures GetRoom(roomId) == Some(NewRoom(roomId))
      ensures forall k | k in old(roomMap.data) && k != roomId :: k in roomMap.data && roomMap.data[k] == old(roomMap.data[k])
      ensures roomId !in old(roomMap.data) ==> roomMap.keys == old(roomMap.keys) + [roomId] && |roomMap.data| == |old(roomMap.data)| + 1
    {
      roomId := freshId;
      roomMap := JsMap.Set(roomMap, roomId, NewRoom(roomId));
    }

    /** `getRoom`: the room stored under `roomId`, if any. */
    function GetRoom(roomId: RoomId): (r: Option<StoredRoom>)
      reads this
      ensures r.Some? <==> roomId in roomMap.data
      ensures r.Some? ==> r.value == roomMap.data[roomId]
    {
      JsMap.Get(roomMap, roomId)
    }

    /** `revealCards`: despite its name, the same lookup as `getRoom`; no status changes. */
    function RevealCards(roomId: RoomId): (r: Option<StoredRoom>)
      reads this
      ensures r == GetRoom(roomId)
    {
      JsMap.Get(roomMap, roomId)
    }

    /** `roomExists`: exactly when `getRoom` finds a room. */
    function RoomExists(roomId: RoomId): (b: bool)
      reads this
      ensures b <==> GetRoom(roomId).Some?
    {
      JsMap.Has(roomMap, roomId)
    }

    /** `deleteRoom`: only the given key goes; an unknown id changes nothing. */
    method DeleteRoom(roomId: RoomId)
      requires Valid()
      modifies this
      ensures Valid()
      ensures roomMap == JsMap.Delete(old(roomMap), roomId)
      ensures GetRoom(roomId) == None
      ensures forall k | k != roomId :: GetRoom(k) == old(GetRoom(k))
      ensures roomId !in old(roomMap.data) ==> roomMap == old(roomMap)
    {
      roomMap := JsMap.Delete(roomMap, roomId);
    }

    /**
     * `getPlayerRoom`: the first room, in insertion order, that seats the
     * player; nothing exactly when no room does.
     */
    method GetPlayerRoom(playerId: PlayerId) returns (room: Option<StoredRoom>)
      requires Valid()
      ensures room == FirstRoomWith(JsMap.Values(roomMap), playerId)
      ensures room.Some? ==> playerId in room.value.players.data && GetRoom(room.value.id) == room
      ensures room.None? <==> forall k | k in roomMap.data :: playerId !in roomMap.data[k].players.data
    {
      var rooms := JsMap.Values(roomMap);
      var i := 0;
      while i < |rooms|
        invariant 0 <= i <= |rooms|
        invariant forall j | 0 <= j < i :: !Seats(rooms[j], playerId)
      {
        if JsMap.Has(rooms[i].players, playerId) {
          FirstRoomAt(rooms, playerId, i);
          assert roomMap.keys[i] in roomMap.data;
          return Some(rooms[i]);
        }
        i := i + 1;
      }
      FirstRoomWithFinds(rooms, playerId);
      forall k | k in roomMap.data ensures playerId !in roomMap.data[k].players.data {
        var j := JsMap.KeyPosition(roomMap, k);
        assert rooms[j] == roomMap.data[k];
      }
      return None;
    }

    /** `isPlayerNameTaken`: some player of the room has exactly this name (case and spaces count). */
    method IsPlayerNameTaken(room: StoredRoom, playerName: string) returns (b: bool)
      ensures b <==> exists k | k in room.players.data :: room.players.data[k].name == playerName
    {
      var players := JsMap.Values(room.players);
      var i := 0;
      while i < |players|
        invariant 0 <= i <= |players|
        invariant forall j | 0 <= j < i :: players[j].name != playerName
      {
        if players[i].name == playerName {
          assert room.players.keys[i] in room.players.data;
          return true;
        }
        i := i + 1;
      }
      forall k | k in room.players.data ensures room.players.data[k].name != playerName {
        var j := JsMap.KeyPosition(room.players, k);
        assert players[j] == room.players.data[k];
      }
      return false;
    }

    /** `updateRoom`: the room is stored under its own id, replacing whatever was there. */
    method UpdateRoom(room: StoredRoom)
      requires Valid()
      modifies this
      ensures Valid()
      ensures roomMap == JsMap.Set(old(roomMap), room.id, room)
      ensures GetRoom(room.id) == Some(room)
      ensures forall k | k != room.id :: GetRoom(k) == old(GetRoom(k))
    {
      roomMap := JsMap.Set(roomMap, room.id, room);
    }

    /**
     * `removePlayerFromRoom`: the player leaves the room, and the room goes
     * once nobody is left; an unknown room id changes nothing.
     */
    method RemovePlayerFromRoom(roomId: RoomId, playerId: PlayerId)
      requires Valid()
      modifies this
      ensures Valid()
      ensures roomMap == PlayerRemoved(old(roomMap), roomId, playerId)
    {
      ghost var before := roomMap;
      var found := GetRoom(roomId);
      if found.Some? {
        var room := found.value;
        room := room.(players := JsMap.Delete(room.players, playerId));
        roomMap := JsMap.Set(roomMap, roomId, room);
        if JsMap.Size(room.players) == 0 {
          JsMap.DeleteAfterSet(before, roomId, room);
          DeleteRoom(roomId);
        }
      }
    }
  }
}
