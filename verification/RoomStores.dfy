/** The messaging service's connection-free room store; each method is one critical section. */
module RoomStores {
  import opened Wrappers
  import opened Rooms
  import opened Listings
  import opened Repositories

  class InMemoryRoomStore {
    var rooms: Store
    const roomRepo: RoomRepository

    constructor (roomRepo: RoomRepository)
      ensures rooms == map[] && this.roomRepo == roomRepo
    {
      this.rooms := map[];
      this.roomRepo := roomRepo;
    }

    method JoinRoom(roomName: Text, username: Text, m: Moment) returns (err: Option<JoinError>)
      modifies this, roomRepo
      ensures (rooms, roomRepo.table, err) == StoreJoin(old(rooms), old(roomRepo.table), roomName, username, m)
    {
      if roomName !in rooms {
        var found := roomRepo.FindByRoomName(roomName, m.findFails);
        if found.Err? {
          return Some(FindFailed);
        }
        var room;
        if found.value.None? {
          room := Room(m.freshId, roomName);
          var ok := roomRepo.Create(room, m.createFails);
          if !ok {
            return Some(CreateFailed);
          }
        } else {
          room := found.value.value;
        }
        rooms := rooms[roomName := Entry(room.id, {})];
      }
      var entry := rooms[roomName];
      rooms := rooms[roomName := entry.(members := entry.members + {username})];
      assert rooms == old(rooms)[roomName := rooms[roomName]];
      assert roomName !in old(rooms) ==> {} + {username} == {username};
      return None;
    }

    method LeaveRoom(roomName: Text, username: Text) returns (ok: bool)
      modifies this
      ensures ok == StoreLeave(old(rooms), roomName, username).Some?
      ensures rooms == if ok then StoreLeave(old(rooms), roomName, username).value else old(rooms)
    {
      if roomName !in rooms {
        return false;
      }
      var members := rooms[roomName].members - {username};
      rooms := rooms[roomName := rooms[roomName].(members := members)];
      if |members| == 0 {
        rooms := rooms - {roomName};
        assert rooms == old(rooms) - {roomName};
      }
      return true;
    }

    method ListRooms() returns (names: seq<Text>)
      ensures IsListing(names, rooms.Keys)
    {
      names := Listing(rooms.Keys);
    }

    method ListRoomMembers(roomName: Text) returns (r: Option<seq<Text>>)
      ensures r.Some? <==> roomName in rooms
      ensures r.Some? ==> IsListing(r.value, rooms[roomName].members)
    {
      if roomName !in rooms {
        return None;
      }
      var members := Listing(rooms[roomName].members);
      return Some(members);
    }

    method GetRoomID(roomName: Text) returns (id: Text)
      ensures id == StoreRoomId(rooms, roomName)
    {
      id := if roomName in rooms then rooms[roomName].id else [];
    }
  }
}
