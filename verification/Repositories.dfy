/** The rooms table behind internal/repository/room.go. */
module Repositories {
  import opened Wrappers
  import opened Rooms

  class RoomRepository {
    var table: Table

    constructor (table: Table)
      ensures this.table == table
    {
      this.table := table;
    }

    /** Ok(None) when no row has the name. */
    method FindByRoomName(roomName: Text, fails: bool) returns (r: Result<Option<Room>, ()>)
      ensures fails ==> r == Err(())
      ensures !fails ==> r == Ok(if roomName in table then Some(Room(table[roomName], roomName)) else None)
    {
      if fails {
        return Err(());
      }
      r := Ok(if roomName in table then Some(Room(table[roomName], roomName)) else None);
    }

    /** Fails, besides, when the name is taken: the column is unique. */
    method Create(room: Room, fails: bool) returns (ok: bool)
      modifies this
      ensures ok <==> !fails && room.name !in old(table)
      ensures table == if ok then old(table)[room.name := room.id] else old(table)
    {
      ok := !fails && room.name !in table;
      if ok {
        table := table[room.name := room.id];
      }
    }
  }
}
