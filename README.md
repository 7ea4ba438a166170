# Planning poker rooms, in Dafny

A model of the server side of a planning-poker application. Players open a
room, join it over a socket connection and vote with cards. The first player
to join a room becomes its ADMIN. The ADMIN can kick players, rename them,
allow or forbid voting, hand the ADMIN role to someone else, reveal the
cards and start a new round. After most changes (all but a kick or a
disconnect), the room's players get a snapshot of the room in which the
votes stay hidden until the reveal.

Two components are modelled:

- **`PokerGateway`** (`src/poker/poker.gateway.ts`) holds the socket
  handlers and the in-memory registry `roomMap`. The model has two halves:
  - class `Gateway.PokerGateway` updates `roomMap` in place and appends
    every `emit` to an `outbox`;
  - module `GatewayHandlers` gives each handler as a pure transition from
    the registry to the new registry and the events sent.

  Every method is proved to agree with its transition and to keep the
  registry well formed: every player stored under its own id, and at most
  one ADMIN per room. Modules `AdminInvariant`, `HandlerProperties` and
  `Snapshots` prove what the transitions and the snapshot do.
- **`PokerService`** (`src/poker/poker.service.ts`) is the room store of
  the HTTP side. It is modelled as class `Service.PokerService`: the
  lookups are functions, and the scans and updates are methods with their
  loops.

Shared pieces:

- `JsMap` models JavaScript's insertion-ordered `Map`. Setting an existing
  key keeps its place; deleting a key removes it from the order.
- `JsString.Trim` models `String.prototype.trim`.
- `Rooms.FirstRoomWith` is the `for … of roomMap.values()` scan that both
  `getPlayerRoom`s perform.

Rooms and players are values. Editing a room in place becomes storing the
edited room under the same key.

Where the project's prose description and the code disagree, the model
follows the code:

- joining never rejects a name already taken;
- the ADMIN's disconnect closes the room instead of promoting someone else;
- a room emptied by ordinary disconnects stays registered in the gateway;
- a kick sends `playerKicked` and no snapshot;
- an ordinary disconnect sends `playerLeft` and no snapshot; the ADMIN's
  disconnect sends only `adminDisconnected`;
- a transfer by a non-ADMIN is silently ignored;
- `reset` and `revealCards` act on the room named in the message, not on
  the caller's room;
- no vote statistics are computed, and the snapshot carries no counts of
  voted or voting players;
- `changeName` never rejects a name already taken;
- there is no handler through which the ADMIN changes another player's
  choice;
- an ADMIN that joins its own room again is overwritten as COMMON, which
  leaves the room with no ADMIN (`HandlerProperties.RejoinDemotesAdmin`).

## Model

The rows about `Gateway.PokerGateway.HandleX` state that each method agrees
with its reference transition. These transitions are the functions
`GatewayHandlers.OnDisconnect`, `OnCreateRoom`, `OnJoinRoom`,
`OnKickPlayer`, `OnChangeName`, `OnUpdateVotingStatus`, `OnTransferAdmin`,
`OnChooseCard`, `OnReset` and `OnRevealCards`. Events are dispatched by
`GatewayHandlers.Handle` and run in sequence by `GatewayHandlers.Run`. The
snapshot is `Snapshots.SnapshotOf`, and the store left by
`removePlayerFromRoom` is `Service.PlayerRemoved`. The lemmas in the table
state what these functions mean.

| member | source | states |
|---|---|---|
| JsMap.Get | src/poker/poker.gateway.ts:42 | `roomMap.get(k)` is defined exactly when the key is stored, and then gives the stored value |
| JsMap.DistinctCard | src/poker/poker.gateway.ts:94 | an insertion order without repeats has as many entries as there are distinct keys, which is why `size` counts the stored keys |
| JsMap.Size | src/poker/poker.gateway.ts:94 | `players.size` is the number of stored players, so it is 0 exactly when the map is empty |
| JsMap.Set | src/poker/poker.gateway.ts:71 | `set` stores the value; an existing key keeps its position, a new key goes last |
| JsMap.Delete | src/poker/poker.gateway.ts:55 | `delete` removes exactly that key from the store and from the iteration order |
| JsMap.Without | src/poker/poker.gateway.ts:60 | the order after `delete` holds every other key and not the deleted one, and is unchanged when the key was absent |
| JsMap.WithoutKeepsOrder | src/poker/poker.gateway.ts:55 | after `delete`, the remaining keys keep their relative insertion order |
| JsMap.WithoutDistinct | src/poker/poker.gateway.ts:60 | deleting a key keeps every key unique in the iteration order |
| JsMap.DeleteAfterSet | src/poker/poker.service.ts:60-62 | editing a stored room and then deleting it leaves the same map as deleting it outright |
| JsMap.Values | src/poker/poker.gateway.ts:271 | `values()` lists one value per key, in insertion order |
| JsMap.ValuesAreStored | src/poker/poker.gateway.ts:271 | a value is listed by `values()` exactly when some key stores it |
| JsMap.KeyPosition | src/poker/poker.gateway.ts:271 | every stored key has exactly one position in the iteration order |
| JsString.LeadingSpace | src/poker/poker.gateway.ts:154 | the whitespace run that `trim` strips from the front ends at the first non-whitespace character |
| JsString.TrailingSpace | src/poker/poker.gateway.ts:154 | the whitespace run that `trim` strips from the back ends at the last non-whitespace character |
| JsString.Trim | src/poker/poker.gateway.ts:154 | `trim` gives the infix between those runs; everything dropped is whitespace; the result neither starts nor ends with whitespace; it is empty exactly when the name is all whitespace |
| JsString.TrimIdempotent | src/poker/poker.gateway.ts:154-157 | a stored trimmed name trims to itself |
| Rooms.FirstRoomWithFinds | src/poker/poker.gateway.ts:270-277 | the scan returns a room that seats the player, and no earlier room seats them; it returns nothing exactly when no room seats the player |
| Rooms.FirstRoomAt | src/poker/poker.gateway.ts:271-274 | the scan stops at the first seating room, whatever follows it |
| Snapshots.ExposeAll | src/poker/poker.gateway.ts:281-286 | one published entry per player |
| Snapshots.AdminsOf | src/poker/poker.gateway.ts:288-289 | the players put in front are ADMINs taken from the room |
| Snapshots.OthersOf | src/poker/poker.gateway.ts:290-291 | the players appended are non-ADMINs taken from the room |
| Snapshots.ReversedPermutes | src/poker/poker.gateway.ts:289 | repeated `unshift` reverses the order but keeps the same entries |
| Snapshots.ExposeAllAt | src/poker/poker.gateway.ts:281-286 | entry i of the exposed list is player i, exposed |
| Snapshots.ExposeAllAppend | src/poker/poker.gateway.ts:281-286 | visiting one more player exposes one more entry at the end |
| Snapshots.ExposeAllSnoc | src/poker/poker.gateway.ts:281-286 | the same step as a multiset |
| Snapshots.ReversedAppend | src/poker/poker.gateway.ts:289 | an `unshift` of one more ADMIN puts it in front of those already there |
| Snapshots.ListedAppendAdmin | src/poker/poker.gateway.ts:288-289 | visiting an ADMIN puts its entry in front of the list built so far |
| Snapshots.ListedAppendOther | src/poker/poker.gateway.ts:290-291 | visiting any other player appends its entry |
| Snapshots.ListedStep | src/poker/poker.gateway.ts:281-293 | one loop iteration turns the list for the first i players into the list for the first i+1 |
| Snapshots.SplitPermutes | src/poker/poker.gateway.ts:288-292 | the ADMINs and the others together are all the players |
| Snapshots.SnapshotIsPermutation | src/poker/poker.gateway.ts:279-294 | the snapshot lists every player exactly once, exposed: a permutation of the room's players |
| Snapshots.SnapshotPublishes | src/poker/poker.gateway.ts:282-285 | every published entry is a seated player with its name, eligibility and role; before the reveal its choice is only "has voted"; after it the raw choice; every player is published |
| Snapshots.AdminsOfKeeps | src/poker/poker.gateway.ts:288-289 | every ADMIN is put in front |
| Snapshots.NoAdmins | src/poker/poker.gateway.ts:288-291 | with no ADMIN, nothing is put in front |
| Snapshots.AdminsAtMostOne | src/poker/poker.gateway.ts:288-289 | with at most one ADMIN, at most one entry is put in front |
| Snapshots.SnapshotAdminFirst | src/poker/poker.gateway.ts:288-292 | in a well-formed room the ADMIN, if any, is entry 0, and the others follow in insertion order |
| GatewayHandlers.ClearChoices | src/poker/poker.gateway.ts:238-240 | every player keeps its seat and every field but `choice`, which becomes `false` |
| AdminInvariant.PlayerRoomStored | src/poker/poker.gateway.ts:270-277 | in a well-formed registry the room found is stored under its own id and seats the player |
| AdminInvariant.SeatKeepsRoom | src/poker/poker.gateway.ts:94-103 | seating a player under its id keeps a room well formed when it is not a second ADMIN |
| AdminInvariant.SoleAdmin | src/poker/poker.gateway.ts:200-205 | in a well-formed room the ADMIN is the only one |
| AdminInvariant.RestampKeepsRoom | src/poker/poker.gateway.ts:157 | editing a seated player without changing its id or role keeps the room well formed |
| AdminInvariant.ReplaceKeepsWellFormed | src/poker/poker.gateway.ts:42 | storing a well-formed room under its id keeps the registry well formed |
| AdminInvariant.UnseatKeepsRoom | src/poker/poker.gateway.ts:55 | removing a player keeps the room well formed |
| AdminInvariant.DeleteKeepsWellFormed | src/poker/poker.gateway.ts:60 | removing a room keeps the registry well formed |
| AdminInvariant.DisconnectKeepsWellFormed | src/poker/poker.gateway.ts:48-64 | a disconnect keeps at most one ADMIN per room |
| AdminInvariant.CreateRoomKeepsWellFormed | src/poker/poker.gateway.ts:66-77 | creating a room keeps at most one ADMIN per room |
| AdminInvariant.JoinRoomKeepsWellFormed | src/poker/poker.gateway.ts:79-111 | a join keeps at most one ADMIN per room |
| AdminInvariant.KickPlayerKeepsWellFormed | src/poker/poker.gateway.ts:113-138 | a kick keeps at most one ADMIN per room |
| AdminInvariant.ChangeNameKeepsWellFormed | src/poker/poker.gateway.ts:140-161 | a rename keeps at most one ADMIN per room |
| AdminInvariant.UpdateVotingStatusKeepsWellFormed | src/poker/poker.gateway.ts:163-188 | a voting-status change keeps at most one ADMIN per room |
| AdminInvariant.TransferAdminKeepsWellFormed | src/poker/poker.gateway.ts:190-210 | a transfer keeps at most one ADMIN per room |
| AdminInvariant.ChooseCardKeepsWellFormed | src/poker/poker.gateway.ts:212-226 | choosing a card keeps at most one ADMIN per room |
| AdminInvariant.ResetKeepsWellFormed | src/poker/poker.gateway.ts:228-247 | a reset keeps at most one ADMIN per room |
| AdminInvariant.RevealCardsKeepsWellFormed | src/poker/poker.gateway.ts:249-268 | a reveal keeps at most one ADMIN per room |
| AdminInvariant.HandleKeepsWellFormed | src/poker/poker.gateway.ts:48-268 | whatever event arrives, the registry stays well formed |
| AdminInvariant.RunKeepsWellFormed | src/poker/poker.gateway.ts:48-268 | so it stays well formed over any sequence of events |
| AdminInvariant.ReachableRoomsHaveAtMostOneAdmin | src/poker/poker.gateway.ts:42 | from the empty registry, no sequence of events produces a room with two ADMINs |
| HandlerProperties.ReplaceOnlyChanges | src/poker/poker.gateway.ts:42 | editing one stored room changes no other room and no room order |
| HandlerProperties.PlayerRoomSpec | src/poker/poker.gateway.ts:270-277 | `getPlayerRoom` finds nothing exactly when no room seats the player; otherwise it finds a stored room that seats them |
| HandlerProperties.PlayerRoomAfterReplace | src/poker/poker.gateway.ts:270-277 | after the caller's room is edited in place and still seats them, the scan finds the edited room |
| HandlerProperties.JoinUnknownRoom | src/poker/poker.gateway.ts:87-110 | joining an unknown room changes nothing and sends "Room not found" to the caller only |
| HandlerProperties.JoinSeatsPlayer | src/poker/poker.gateway.ts:94-103 | the joiner is seated under its connection id; it is ADMIN exactly when the room was empty; its name is the given one or "guest"; it may vote and has not voted |
| HandlerProperties.JoinKeepsOthers | src/poker/poker.gateway.ts:103 | nobody else's seat changes; a re-join keeps its place and a new player goes last |
| HandlerProperties.JoinPublishes | src/poker/poker.gateway.ts:103-107 | no other room changes, and the room's group gets the new snapshot |
| HandlerProperties.RejoinDemotesAdmin | src/poker/poker.gateway.ts:94-103 | an ADMIN joining its own room again is overwritten as COMMON, and the room has no ADMIN left |
| HandlerProperties.KickGuard | src/poker/poker.gateway.ts:121-137 | "Not authorized" goes to the caller with nothing changed, exactly when the caller is not ADMIN or names itself |
| HandlerProperties.UpdateVotingStatusGuard | src/poker/poker.gateway.ts:171-187 | a non-ADMIN gets "Not authorized" and nothing changes |
| HandlerProperties.ResetGuard | src/poker/poker.gateway.ts:236-246 | a non-ADMIN gets "Not authorized" and nothing changes |
| HandlerProperties.RevealGuard | src/poker/poker.gateway.ts:259-267 | a non-ADMIN gets "Not authorized" and nothing changes |
| HandlerProperties.UnknownRoomIgnored | src/poker/poker.gateway.ts:233-234 | reset and revealCards of an unknown room do nothing |
| HandlerProperties.UnseatedCallerIgnored | src/poker/poker.gateway.ts:51-52 | every caller-room handler does nothing for a connection that no room seats |
| HandlerProperties.KickRemovesOnlyTarget | src/poker/poker.gateway.ts:127-131 | an ADMIN's kick removes exactly the target; the room keeps its id and status, and the others keep their order; the room is told `playerKicked`; other rooms are unchanged |
| HandlerProperties.KickMissingTarget | src/poker/poker.gateway.ts:127-134 | kicking a connection not seated gives "Player not found" and changes nothing |
| HandlerProperties.DisconnectRemovesPlayer | src/poker/poker.gateway.ts:54-63 | a non-ADMIN's disconnect removes exactly that player; the room keeps its id and status, and the others keep their order; the room is told `playerLeft`; the room stays even when empty |
| HandlerProperties.DisconnectAdminClosesRoom | src/poker/poker.gateway.ts:54-60 | the ADMIN's disconnect removes the room, keeps the other rooms in order and tells the group `adminDisconnected` |
| HandlerProperties.ChangeNameStoresTrimmed | src/poker/poker.gateway.ts:148-159 | a non-blank name is stored trimmed on the target (the caller, or whoever the ADMIN names); nothing else changes; the room gets the snapshot |
| HandlerProperties.ChangeNameNoOp | src/poker/poker.gateway.ts:154-156 | a blank name, or a target not seated, changes nothing and sends nothing |
| HandlerProperties.ChangeNameSelfOnly | src/poker/poker.gateway.ts:148-152 | a non-ADMIN can rename only itself, whatever target it sends |
| HandlerProperties.RevealTouchesNoPlayer | src/poker/poker.gateway.ts:261-264 | an ADMIN's reveal sets REVEAL, touches no player and no other room, and sends the snapshot |
| HandlerProperties.ResetClearsChoices | src/poker/poker.gateway.ts:237-242 | an ADMIN's reset sets VOTING and every choice to `false`; every other field, seat and order is kept |
| HandlerProperties.ResetKeepsRest | src/poker/poker.gateway.ts:237-243 | the reset changes no other room and sends the snapshot |
| HandlerProperties.UpdateVotingStatusEffect | src/poker/poker.gateway.ts:173-181 | the target's `canVote` is set; its choice is cleared unless the room is revealed; nothing else changes |
| HandlerProperties.UpdateVotingStatusMissingTarget | src/poker/poker.gateway.ts:173-184 | a target not seated gives "Player not found" and nothing changes |
| HandlerProperties.TransferAdminSwaps | src/poker/poker.gateway.ts:199-205 | after a transfer the target is the room's only ADMIN |
| HandlerProperties.TransferAdminKeepsRest | src/poker/poker.gateway.ts:203-205 | a transfer changes only roles: same seats, same order, same other fields |
| HandlerProperties.TransferAdminPublishes | src/poker/poker.gateway.ts:203-207 | a transfer changes no other room and sends the snapshot |
| HandlerProperties.TransferAdminIgnored | src/poker/poker.gateway.ts:197-209 | a transfer to nobody, by a non-ADMIN or to a connection not seated does nothing |
| HandlerProperties.ChooseCardIgnored | src/poker/poker.gateway.ts:219-222 | a falsy choice, a revealed room, a caller who may not vote or an unchanged choice does nothing |
| HandlerProperties.ChooseCardRecords | src/poker/poker.gateway.ts:221-224 | otherwise only the caller's choice changes, and the room gets the snapshot |
| HandlerProperties.ChooseCardIdempotent | src/poker/poker.gateway.ts:212-226 | choosing the same card again changes nothing and sends nothing |
| Gateway.PokerGateway.constructor | src/poker/poker.gateway.ts:42 | the registry starts empty and nothing has been sent |
| Gateway.PokerGateway.GetPlayerRoom | src/poker/poker.gateway.ts:270-277 | the loop returns exactly what the scan `FirstRoomWith` gives |
| Gateway.PokerGateway.BuildSnapshot | src/poker/poker.gateway.ts:279-293 | the `push`/`unshift` loop builds exactly `SnapshotOf(room)` |
| Gateway.PokerGateway.RoomUpdate | src/poker/poker.gateway.ts:279-295 | `roomUpdate` sends the room's snapshot to the room's group |
| Gateway.PokerGateway.StoreAndPublish | src/poker/poker.gateway.ts:157-159 | the edited room is the stored one, and one snapshot event is appended |
| Gateway.PokerGateway.ClearAllChoices | src/poker/poker.gateway.ts:238-240 | the `forEach` loop leaves exactly `ClearChoices(players)` |
| Gateway.PokerGateway.HandleDisconnect | src/poker/poker.gateway.ts:48-64 | keeps the registry well formed; leaves the registry and events of `OnDisconnect` |
| Gateway.PokerGateway.HandleCreateRoom | src/poker/poker.gateway.ts:66-77 | keeps the registry well formed; leaves the registry and events of `OnCreateRoom` |
| Gateway.PokerGateway.HandleJoinRoom | src/poker/poker.gateway.ts:79-111 | keeps the registry well formed; leaves the registry and events of `OnJoinRoom` |
| Gateway.PokerGateway.HandleKickPlayer | src/poker/poker.gateway.ts:113-138 | keeps the registry well formed; leaves the registry and events of `OnKickPlayer` |
| Gateway.PokerGateway.HandleChangeName | src/poker/poker.gateway.ts:140-161 | keeps the registry well formed; leaves the registry and events of `OnChangeName` |
| Gateway.PokerGateway.HandleUpdateVotingStatus | src/poker/poker.gateway.ts:163-188 | keeps the registry well formed; leaves the registry and events of `OnUpdateVotingStatus` |
| Gateway.PokerGateway.HandleTransferAdmin | src/poker/poker.gateway.ts:190-210 | keeps the registry well formed; leaves the registry and events of `OnTransferAdmin` |
| Gateway.PokerGateway.HandleChooseCard | src/poker/poker.gateway.ts:212-226 | keeps the registry well formed; leaves the registry and events of `OnChooseCard` |
| Gateway.PokerGateway.HandleResetCards | src/poker/poker.gateway.ts:228-247 | keeps the registry well formed; leaves the registry and events of `OnReset` |
| Gateway.PokerGateway.HandleRevealCards | src/poker/poker.gateway.ts:249-268 | keeps the registry well formed; leaves the registry and events of `OnRevealCards` |
| Service.PlayerRemovedEffect | src/poker/poker.service.ts:57-65 | an unknown room id changes nothing; the room survives exactly when someone besides the player is left, and then holds everyone but the player, the rest in their join order; other rooms are kept in place |
| Service.PokerService.constructor | src/poker/poker.service.ts:7 | the store starts empty |
| Service.PokerService.CreateRoom | src/poker/poker.service.ts:9-17 | returns the fresh id; stores an empty VOTING room under it; keeps every other room; with a new id, appends exactly one key |
| Service.PokerService.GetRoom | src/poker/poker.service.ts:19-21 | finds a room exactly when one is stored under the id, and gives that room |
| Service.PokerService.RevealCards | src/poker/poker.service.ts:23-25 | returns the same as `getRoom` and changes no status |
| Service.PokerService.RoomExists | src/poker/poker.service.ts:27-29 | true exactly when `getRoom` finds a room |
| Service.PokerService.DeleteRoom | src/poker/poker.service.ts:31-33 | afterwards `getRoom` finds nothing under the id; every other lookup is unchanged; an unknown id changes nothing |
| Service.PokerService.GetPlayerRoom | src/poker/poker.service.ts:35-42 | the loop returns the first room in insertion order that seats the player; that room is stored under its own id; it returns nothing exactly when no room seats the player |
| Service.PokerService.IsPlayerNameTaken | src/poker/poker.service.ts:44-51 | true exactly when some seated player's name equals the given name (no trimming, case counts) |
| Service.PokerService.UpdateRoom | src/poker/poker.service.ts:53-55 | afterwards `getRoom(room.id)` gives the room; every other lookup is unchanged |
| Service.PokerService.RemovePlayerFromRoom | src/poker/poker.service.ts:57-65 | keeps every room under its own id; leaves exactly the store `PlayerRemoved` describes |

## Left out

- Socket transport is not modelled. This covers `client.join`, `server.in(..).disconnectSockets()`, the delivery of emits and the decorators. An emit is recorded as one `Event` in `PokerGateway.outbox`, naming the caller or the room's group. A kicked connection stays in the room's socket group; the model does not track group membership.
- `disconnectSockets()` after the ADMIN leaves is not followed by the `disconnect` events it triggers. Those nested `handleDisconnect` calls run inside `poker.gateway.ts:59`, before the room is deleted at `poker.gateway.ts:60`. Each remaining member whose first room is the closing one is unseated there, and a `playerLeft` goes to the closing room's group. A connection first seated in another room is unseated from that room instead; a kicked player is such a case. HandlerProperties.DisconnectAdminClosesRoom: both its event list (only `adminDisconnected`) and its "other rooms unchanged" describe the single handler call, not these follow-up disconnects.
- `handleConnection` and every `console.log` are left out: they only log.
- `randomUUID()` is a parameter (`freshId`) of `HandleCreateRoom` and `PokerService.CreateRoom`. Its freshness is not assumed: a repeated id overwrites the stored room, as `Map.set` would.
- The controller, the JSend error filter, the module and bootstrap files are not part of this model. They only wrap the store in HTTP.
- `RoomDataFrontInterface` and its vote statistics (`minChoice`, `maxChoice`, `averageChoice`) are not part of this model. Nothing in the modelled code computes them.
- `previousChoiceBeforeAdminChange` is only a field of `Interfaces.Player`: no modelled code reads or writes it.
- Choices are modelled without NaN or floating-point rounding. A number is a `real`, and NaN's `!==` behaviour in `chooseCard` is not captured.
- HandleChooseCard: accepts any `Choice`, although the handler's parameter is typed `number`. The socket delivers whatever JSON the client sends.
- Handler payloads are otherwise taken at their declared types. A missing `data` (the destructuring at `poker.gateway.ts:84`) or a missing `newName` (`.trim()` at `poker.gateway.ts:154`) makes the handler throw before any change. Those throws are not modelled.
- The gateway's player `role` is optional in its interface, but every join sets it, so the model makes it mandatory.
- Rooms and players are values. Two references to one room object (the one the service returns and the one it keeps) are not modelled, so an edit made through a returned room without `updateRoom` is not captured.
- Handlers run one at a time, to completion. Interleavings inside a handler are not modelled.
- Service.PokerService.RevealCards: its contract is only the agreement with `GetRoom`, because the service's `revealCards` reveals nothing.
