/** The message router as an object; each method is one critical section. */
module MessageRouters {
  import opened Wrappers
  import opened Framing
  import opened Rooms
  import opened Delivery
  import opened Listings
  import opened Repositories

  class InMemoryMessageRouter {
    var rooms: map<Text, Session<Conn>>
    var users: map<Text, Conn>
    const roomRepo: RoomRepository

    function State(): Router<Conn>
      reads this
    {
      Router(rooms, users)
    }

    /** From this state and this table, the call has led to where the router and its table are. */
    ghost predicate Does(s: Router<Conn>, t: Table, e: Call<Conn>)
      reads this, roomRepo
    {
      Apply(s, t, e) == (State(), roomRepo.table)
    }

    constructor (roomRepo: RoomRepository)
      ensures State() == Router(map[], map[]) && this.roomRepo == roomRepo
    {
      this.rooms := map[];
      this.users := map[];
      this.roomRepo := roomRepo;
    }

    method JoinRoom(roomName: Text, username: Text, conn: Conn?, m: Moment) returns (err: Option<JoinError>)
      modifies this, roomRepo
      ensures conn == null ==> err == Some(NilConn) && State() == old(State()) && roomRepo.table == old(roomRepo.table)
      ensures conn != null ==>
        (State(), roomRepo.table, err) == Join(old(State()), old(roomRepo.table), roomName, username, conn, m)
        && Does(old(State()), old(roomRepo.table), Joins(roomName, username, conn, m))
    {
      if conn == null {
        return Some(NilConn);
      }
      if roomName !in rooms {
        var found := roomRepo.FindByRoomName(roomName, m.findFails);
        if found.Err? {
          return Some(FindFailed);
        }
        var room;
        if found.value.None? {
          room := Room(m.freshId, roomName);
          var ok := roomRepo.Create(room, m.createFails);
          if !ok {
            return Some(CreateFailed);
          }
        } else {
          room := found.value.value;
        }
        rooms := rooms[roomName := Session(room, map[])];
      }
      var session := rooms[roomName];
      rooms := rooms[roomName := session.(members := session.members[username := conn])];
      users := users[username := conn];
      assert rooms == old(rooms)[roomName := rooms[roomName]];
      return None;
    }

    method LeaveRoom(roomName: Text, username: Text) returns (ok: bool)
      modifies this`rooms
      ensures ok == Leave(old(State()), roomName, username).Some?
      ensures State() == if ok then Leave(old(State()), roomName, username).value else old(State())
      ensures Does(old(State()), old(roomRepo.table), Leaves(roomName, username))
    {
      if roomName !in rooms {
        return false;
      }
      DropMemberInTwoSteps(rooms, roomName, username);
      var members := rooms[roomName].members - {username};
      rooms := rooms[roomName := rooms[roomName].(members := members)];
      if |members| == 0 {
        rooms := rooms - {roomName};
      }
      return true;
    }

    /** Deletes while ranging over the map, in whatever order the keys come up. */
    method Disconnect(username: Text)
      modifies this
      ensures State() == Rooms.Disconnect(old(State()), username)
      ensures Does(old(State()), old(roomRepo.table), Disconnects(username))
    {
      var pending := rooms.Keys;
      while pending != {}
        invariant pending <= old(rooms).Keys && users == old(users)
        invariant rooms == Swept(old(rooms), pending, username)
        decreases |pending|
      {
        var roomName :| roomName in pending;
        SweepVisit(old(rooms), rooms, pending, roomName, username);
        pending := pending - {roomName};
        var members := rooms[roomName].members - {username};
        rooms := rooms[roomName := rooms[roomName].(members := members)];
        if |members| == 0 {
          rooms := rooms - {roomName};
        }
      }
      SweptAll(old(State()), username);
      users := users - {username};
    }

    /** Delivers one copy per member username, skipping connections that refuse the write. */
    method BroadcastRoom(roomName: Text, from: Text, body: Text) returns (ok: bool)
      modifies (if roomName in rooms then rooms[roomName].members.Values else {})`outgoing
      ensures ok <==> roomName in rooms
      ensures Does(old(State()), old(roomRepo.table), Broadcasts(roomName, from, body))
      ensures ok ==> forall c | c in rooms[roomName].members.Values ::
        c.outgoing == old(c.outgoing) + Reaching(c, Written(State(), Broadcasts(roomName, from, body), c))
    {
      if roomName !in rooms {
        return false;
      }
      var room := rooms[roomName];
      DeliverAll(room.members, Line(room.room.name, from, body));
      return true;
    }

    method SendTo(username: Text, data: seq<byte>) returns (ok: bool)
      modifies (if username in users then {users[username]} else {})`outgoing
      ensures ok <==> username in users && !users[username].broken
      ensures Does(old(State()), old(roomRepo.table), Sends(username, data))
      ensures username in users ==>
        var c := users[username];
        c.outgoing == old(c.outgoing) + Reaching(c, Written(State(), Sends(username, data), c))
    {
      if username !in users {
        return false;
      }
      ok := WriteMessage(users[username], data);
    }

    method GetRoomID(roomName: Text) returns (id: Text)
      ensures id == RoomId(State(), roomName)
    {
      id := if roomName in rooms then rooms[roomName].room.id else [];
    }

    /** The names stored in the sessions, one per room; for a sound router they are the keys. */
    method ListRooms() returns (names: seq<Text>)
      ensures |names| == |rooms|
      ensures forall i | 0 <= i < |names| :: exists r | r in rooms :: rooms[r].room.name == names[i]
      ensures Sound(State()) ==> IsListing(names, rooms.Keys)
    {
      var keys := Listing(rooms.Keys);
      assert |keys| == |multiset(keys)| == |rooms|;
      names := [];
      for i := 0 to |keys|
        invariant |names| == i
        invariant forall k | 0 <= k < i :: names[k] == rooms[keys[k]].room.name
      {
        names := names + [rooms[keys[i]].room.name];
      }
      assert Sound(State()) ==> names == keys;
    }

    /** One line per room, or a note that there are none; a broken connection gets nothing and that
        is not an error. order and rosters are the orders the map iterations take. */
    method PrintRooms(conn: Conn?, order: seq<Text>, rosters: seq<seq<Text>>) returns (ok: bool)
      requires IterationOrders(rooms, order, rosters)
      modifies (if conn == null then {} else {conn})`outgoing
      ensures ok <==> conn != null
      ensures ok ==>
        var lines := if rooms == map[] then [Ascii("no active rooms")] else Lines(rooms, order, rosters);
        conn.outgoing == old(conn.outgoing) + Reaching(conn, Written(State(), Prints(conn, lines), conn))
        && Does(old(State()), old(roomRepo.table), Prints(conn, lines))
    {
      if conn == null {
        return false;
      }
      if |rooms| == 0 {
        WriteLines(conn, [Ascii("no active rooms")]);
      } else {
        WriteLines(conn, Lines(rooms, order, rosters));
      }
      return true;
    }

    method ListRoomMembers(roomName: Text) returns (r: Option<seq<Text>>)
      ensures r.Some? <==> roomName in rooms
      ensures r.Some? ==> IsListing(r.value, rooms[roomName].members.Keys)
    {
      if roomName !in rooms {
        return None;
      }
      var members := Listing(rooms[roomName].members.Keys);
      return Some(members);
    }
  }

  /** Some order of the rooms, and for each some order of its members. */
  ghost predicate IterationOrders<C>(rooms: map<Text, Session<C>>, order: seq<Text>, rosters: seq<seq<Text>>) {
    && IsListing(order, rooms.Keys) && |rosters| == |order|
    && (forall i | 0 <= i < |order| :: order[i] in rooms)
    && (forall i | 0 <= i < |order| :: IsListing(rosters[i], rooms[order[i]].members.Keys))
  }

  function Lines<C>(rooms: map<Text, Session<C>>, order: seq<Text>, rosters: seq<seq<Text>>): (lines: seq<Text>)
    requires |rosters| == |order| && forall i | 0 <= i < |order| :: order[i] in rooms
    ensures |lines| == |order|
    ensures forall i | 0 <= i < |order| :: lines[i] == Roster(rooms[order[i]].room.name, rosters[i])
  {
    seq(|order|, i requires 0 <= i < |order| => Roster(rooms[order[i]].room.name, rosters[i]))
  }

  lemma EncodeOne(line: Text)
    ensures EncodeAll([line]) == Encode(line)
  {
  }

  lemma EncodeNext(lines: seq<Text>, i: nat)
    requires i < |lines|
    ensures EncodeAll(lines[..i + 1]) == EncodeAll(lines[..i]) + Encode(lines[i])
  {
    assert lines[..i + 1] == lines[..i] + [lines[i]];
    EncodeAllConcat(lines[..i], [lines[i]]);
    EncodeOne(lines[i]);
  }

  /** One write per line, going on after a failure. */
  method WriteLines(conn: Conn, lines: seq<Text>)
    modifies conn`outgoing
    ensures conn.outgoing == old(conn.outgoing) + (if conn.broken then [] else EncodeAll(lines))
  {
    for i := 0 to |lines|
      invariant conn.outgoing == old(conn.outgoing) + (if conn.broken then [] else EncodeAll(lines[..i]))
    {
      EncodeNext(lines, i);
      var delivered := WriteMessage(conn, lines[i]);
    }
    assert lines[..|lines|] == lines;
  }

  /** What is written to c arrives, or none of it if c is broken. */
  function Reaching(c: Conn, bytes: seq<byte>): seq<byte>
    reads c`broken
  {
    if c.broken then [] else bytes
  }

  /** n writes of the same frame to c. */
  function CopiesSent(c: Conn, frame: seq<byte>, n: nat): seq<byte>
    reads c`broken
  {
    Reaching(c, Repeat(frame, n))
  }

  /** One more username of the room served: c has what it had, and the frame if it is that username's. */
  lemma OneMoreCopy(members: map<Text, Conn>, pending: set<Text>, user: Text, c: Conn, frame: seq<byte>,
                    before: seq<byte>, was: seq<byte>, now: seq<byte>)
    requires user in pending && user in members
    requires was == before + CopiesSent(c, frame, Copies(members - pending, c))
    requires now == was + (if members[user] == c && !c.broken then frame else [])
    ensures now == before + CopiesSent(c, frame, Copies(members - (pending - {user}), c))
  {
    CopiesVisit(members, pending, user, c);
    if members[user] == c && !c.broken {
      var n := Copies(members - pending, c);
      assert before + Repeat(frame, n) + frame == before + (Repeat(frame, n) + frame);
    } else {
      assert was + [] == was;
    }
  }

  /** The loop of BroadcastRoom: one write per username, in whatever order they come up. */
  method DeliverAll(members: map<Text, Conn>, line: Text)
    modifies members.Values`outgoing
    ensures forall c | c in members.Values ::
      c.outgoing == old(c.outgoing) + CopiesSent(c, Encode(line), Copies(members, c))
  {
    ghost var frame := Encode(line);
    var pending := members.Keys;
    while pending != {}
      invariant pending <= members.Keys
      invariant forall c | c in members.Values ::
        c.outgoing == old(c.outgoing) + CopiesSent(c, frame, Copies(members - pending, c))
      decreases |pending|
    {
      var username :| username in pending;
      label visit:
      var delivered := WriteMessage(members[username], line);
      forall c | c in members.Values
        ensures c.outgoing == old(c.outgoing) + CopiesSent(c, frame, Copies(members - (pending - {username}), c))
      {
        OneMoreCopy(members, pending, username, c, frame, old(c.outgoing), old@visit(c.outgoing), c.outgoing);
      }
      pending := pending - {username};
    }
    assert members - {} == members;
  }
}
