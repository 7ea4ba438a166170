/**
 * The shared interfaces the room store works with: a player whose vote is a
 * string or a boolean, with an optional audit field and an optional role.
 * Rooms, their status and the role values are those of module Rooms.
 */
module Interfaces {
  import opened Wrappers
  import opened Rooms

  /** `string | boolean`: a card value, or `false` for "not voted". */
  datatype Vote = Card(text: string) | Flag(b: bool)

  datatype Player = Player(
    id: PlayerId,
    name: string,
    canVote: bool,
    choice: Vote,
    previousChoiceBeforeAdminChange: Option<Vote>,
    role: Option<PlayerRole>)

  type StoredRoom = Room<Player>
}
