/** What the message router and the room store do to their maps, as functions on values.
    C is whatever stands for a connection. Go strings are byte sequences. */
module Rooms {
  import opened Wrappers
  import opened Framing

  type Text = seq<byte>

  /** A row of the rooms table as the two stores use it. */
  datatype Room = Room(id: Text, name: Text)

  /** The rooms table: names are unique, rows are never deleted. */
  type Table = map<Text, Text>

  /** How the repository behaves during one call: whether each query fails, and the id a new room would get. */
  datatype Moment = Moment(findFails: bool, createFails: bool, freshId: Text)

  datatype JoinError = NilConn | FindFailed | CreateFailed

  /** Find the room by name, or create it: the id to cache, and the table afterwards. */
  function FindOrCreate(t: Table, name: Text, m: Moment): (Result<Text, JoinError>, Table) {
    if m.findFails then (Err(FindFailed), t)
    else if name in t then (Ok(t[name]), t)
    else if m.createFails then (Err(CreateFailed), t)
    else (Ok(m.freshId), t[name := m.freshId])
  }

  // ------------------------------------------------------------------ the router

  datatype Session<C> = Session(room: Room, members: map<Text, C>)

  datatype Router<C> = Router(rooms: map<Text, Session<C>>, users: map<Text, C>)

  function Enter<C>(s: Router<C>, name: Text, session: Session<C>, user: Text, conn: C): Router<C> {
    Router(s.rooms[name := session.(members := session.members[user := conn])], s.users[user := conn])
  }

  function Join<C>(s: Router<C>, t: Table, name: Text, user: Text, conn: C, m: Moment)
    : (Router<C>, Table, Option<JoinError>)
  {
    if name in s.rooms then (Enter(s, name, s.rooms[name], user, conn), t, None)
    else
      var (r, t') := FindOrCreate(t, name, m);
      if r.Err? then (s, t', Some(r.error))
      else (Enter(s, name, Session(Room(r.value, name), map[]), user, conn), t', None)
  }

  /** Take the user out of one room, and the room out of the map if that empties it. */
  function DropMember<C>(rooms: map<Text, Session<C>>, name: Text, user: Text): map<Text, Session<C>>
    requires name in rooms
  {
    var left := rooms[name].members - {user};
    if left == map[] then rooms - {name} else rooms[name := rooms[name].(members := left)]
  }

  /** The two assignments the code makes are one DropMember. */
  lemma DropMemberInTwoSteps<C>(rooms: map<Text, Session<C>>, name: Text, user: Text)
    requires name in rooms
    ensures var left := rooms[name].members - {user};
            var updated := rooms[name := rooms[name].(members := left)];
            DropMember(rooms, name, user) == if |left| == 0 then updated - {name} else updated
  {
  }

  /** None when the room does not exist. */
  function Leave<C>(s: Router<C>, name: Text, user: Text): Option<Router<C>> {
    if name in s.rooms then Some(s.(rooms := DropMember(s.rooms, name, user))) else None
  }

  /** Out of every room and out of the user map; rooms left empty go. */
  function Disconnect<C>(s: Router<C>, user: Text): Router<C> {
    Router(map r | r in s.rooms && s.rooms[r].members - {user} != map[] ::
             s.rooms[r].(members := s.rooms[r].members - {user}),
           s.users - {user})
  }

  function RoomId<C>(s: Router<C>, name: Text): Text {
    if name in s.rooms then s.rooms[name].room.id else []
  }

  // -------------------------------------------------------------- the room store

  datatype Entry = Entry(id: Text, members: set<Text>)

  type Store = map<Text, Entry>

  function StoreJoin(s: Store, t: Table, name: Text, user: Text, m: Moment): (Store, Table, Option<JoinError>) {
    if name in s then (s[name := s[name].(members := s[name].members + {user})], t, None)
    else
      var (r, t') := FindOrCreate(t, name, m);
      if r.Err? then (s, t', Some(r.error))
      else (s[name := Entry(r.value, {user})], t', None)
  }

  function StoreLeave(s: Store, name: Text, user: Text): Option<Store> {
    if name !in s then None
    else
      var left := s[name].members - {user};
      Some(if left == {} then s - {name} else s[name := s[name].(members := left)])
  }

  function StoreRoomId(s: Store, name: Text): Text {
    if name in s then s[name].id else []
  }

  // ------------------------------------------------------------------ invariants

  /** Keys are room names, no stored room is empty, and every member is a known user. */
  ghost predicate Sound<C>(s: Router<C>) {
    forall r | r in s.rooms ::
      && s.rooms[r].room.name == r
      && s.rooms[r].members != map[]
      && s.rooms[r].members.Keys <= s.users.Keys
  }

  lemma JoinKeepsSound<C>(s: Router<C>, t: Table, name: Text, user: Text, conn: C, m: Moment)
    requires Sound(s)
    ensures Sound(Join(s, t, name, user, conn, m).0)
  {
    var s' := Join(s, t, name, user, conn, m).0;
    if s' != s {
      assert user in s'.rooms[name].members;
    }
  }

  lemma LeaveKeepsSound<C>(s: Router<C>, name: Text, user: Text)
    requires Sound(s) && name in s.rooms
    ensures Sound(Leave(s, name, user).value)
  {
  }

  lemma DisconnectKeepsSound<C>(s: Router<C>, user: Text)
    requires Sound(s)
    ensures Sound(Disconnect(s, user))
  {
  }

  // ------------------------------------------------------------ who is where, entry by entry

  ghost predicate Holds<C>(s: Router<C>, room: Text, user: Text, c: C) {
    room in s.rooms && user in s.rooms[room].members && s.rooms[room].members[user] == c
  }

  lemma JoinHolds<C>(s: Router<C>, t: Table, name: Text, user: Text, conn: C, m: Moment, r: Text, u: Text, c: C)
    ensures var (s', _, e) := Join(s, t, name, user, conn, m);
            Holds(s', r, u, c) == if e.None? && r == name && u == user then c == conn else Holds(s, r, u, c)
  {
  }

  lemma DisconnectHolds<C>(s: Router<C>, user: Text, r: Text, u: Text, c: C)
    ensures Holds(Disconnect(s, user), r, u, c) <==> u != user && Holds(s, r, u, c)
  {
    if u != user && Holds(s, r, u, c) {
      assert u in s.rooms[r].members - {user};
    }
  }

  lemma LeaveHolds<C>(s: Router<C>, name: Text, user: Text, r: Text, u: Text, c: C)
    ensures var left := Leave(s, name, user);
            Holds(if left.Some? then left.value else s, r, u, c) <==>
            Holds(s, r, u, c) && !(r == name && u == user)
  {
    if Holds(s, r, u, c) && !(r == name && u == user) && r == name {
      assert u in s.rooms[name].members - {user};
    }
  }

  // ------------------------------------------- the router refines the room store

  /** Forget the connections. */
  function Erase<C>(s: Router<C>): Store {
    map r | r in s.rooms :: Entry(s.rooms[r].room.id, s.rooms[r].members.Keys)
  }

  datatype Op<C> =
    | DoJoin(name: Text, user: Text, conn: C, moment: Moment)
    | DoLeave(name: Text, user: Text)

  /** A router and its repository after a sequence of calls, and what each call returned. */
  function RunRouter<C>(t0: Table, ops: seq<Op<C>>): (r: (Router<C>, Table, seq<Option<JoinError>>, seq<bool>))
  {
    if ops == [] then (Router(map[], map[]), t0, [], []) else
      var (s, t, errs, oks) := RunRouter(t0, ops[..|ops| - 1]);
      match ops[|ops| - 1]
      case DoJoin(name, user, conn, m) =>
        var (s', t', e) := Join(s, t, name, user, conn, m);
        (s', t', errs + [e], oks)
      case DoLeave(name, user) =>
        var s' := Leave(s, name, user);
        (if s'.Some? then s'.value else s, t, errs, oks + [s'.Some?])
  }

  function RunStore<C>(t0: Table, ops: seq<Op<C>>): (r: (Store, Table, seq<Option<JoinError>>, seq<bool>))
  {
    if ops == [] then (map[], t0, [], []) else
      var (s, t, errs, oks) := RunStore(t0, ops[..|ops| - 1]);
      match ops[|ops| - 1]
      case DoJoin(name, user, _, m) =>
        var (s', t', e) := StoreJoin(s, t, name, user, m);
        (s', t', errs + [e], oks)
      case DoLeave(name, user) =>
        var s' := StoreLeave(s, name, user);
        (if s'.Some? then s'.value else s, t, errs, oks + [s'.Some?])
  }

  lemma EraseJoin<C>(s: Router<C>, t: Table, name: Text, user: Text, conn: C, m: Moment)
    ensures var (s', t', e) := Join(s, t, name, user, conn, m);
            StoreJoin(Erase(s), t, name, user, m) == (Erase(s'), t', e)
  {
    if name in s.rooms {
      EraseEnter(s, name, s.rooms[name], user, conn);
    } else {
      var (r, _) := FindOrCreate(t, name, m);
      if r.Ok? {
        var session: Session<C> := Session(Room(r.value, name), map[]);
        EraseEnter(s, name, session, user, conn);
        assert session.members.Keys + {user} == {user};
      }
    }
  }

  lemma EraseEnter<C>(s: Router<C>, name: Text, session: Session<C>, user: Text, conn: C)
    ensures Erase(Enter(s, name, session, user, conn))
            == Erase(s)[name := Entry(session.room.id, session.members.Keys + {user})]
  {
    assert session.members[user := conn].Keys == session.members.Keys + {user};
  }

  lemma EraseLeave<C>(s: Router<C>, name: Text, user: Text)
    ensures var s' := Leave(s, name, user);
            StoreLeave(Erase(s), name, user) == if s'.Some? then Some(Erase(s'.value)) else None
  {
    if name in s.rooms {
      var left := s.rooms[name].members - {user};
      assert left.Keys == s.rooms[name].members.Keys - {user};
      assert left == map[] <==> left.Keys == {};
      assert StoreLeave(Erase(s), name, user).value == Erase(Leave(s, name, user).value);
    }
  }

  /** Whatever the repository does, the same calls leave the router and the room store with the
      same rooms, members and ids, the same table, and the same results; and the router is sound. */
  lemma {:induction false} RouterRefinesStore<C>(t0: Table, ops: seq<Op<C>>)
    ensures var (s, t, errs, oks) := RunRouter(t0, ops);
            Sound(s) && RunStore(t0, ops) == (Erase(s), t, errs, oks)
  {
    if ops == [] {
      assert Erase(RunRouter(t0, ops).0) == map[];
    } else {
      var front := ops[..|ops| - 1];
      RouterRefinesStore(t0, front);
      var (s, t, _, _) := RunRouter(t0, front);
      match ops[|ops| - 1]
      case DoJoin(name, user, conn, m) =>
        EraseJoin(s, t, name, user, conn, m);
        JoinKeepsSound(s, t, name, user, conn, m);
      case DoLeave(name, user) =>
        EraseLeave(s, name, user);
        if name in s.rooms {
          LeaveKeepsSound(s, name, user);
        }
    }
  }

  /** So everything the two interfaces list agrees, although the router lists the names stored
      inside its sessions and the store lists its keys. */
  lemma ListingsAgree<C>(t0: Table, ops: seq<Op<C>>, name: Text)
    ensures var s, st := RunRouter(t0, ops).0, RunStore(t0, ops).0;
            && (set r | r in s.rooms :: s.rooms[r].room.name) == st.Keys
            && (name in s.rooms <==> name in st)
            && (name in st ==> s.rooms[name].members.Keys == st[name].members)
            && RoomId(s, name) == StoreRoomId(st, name)
  {
    RouterRefinesStore(t0, ops);
    var s := RunRouter(t0, ops).0;
    assert forall r | r in s.rooms :: s.rooms[r].room.name == r;
    assert Erase(s).Keys == s.rooms.Keys;
  }

  // ----------------------------------------------------------- disconnect confluence

  /** Leave the rooms listed, one after another. */
  function LeaveEach<C>(s: Router<C>, rooms: seq<Text>, user: Text): Router<C>
    decreases rooms
  {
    if rooms == [] then s else
      var s' := Leave(s, rooms[0], user);
      LeaveEach(if s'.Some? then s'.value else s, rooms[1..], user)
  }

  /** The room map part-way through the delete-while-ranging loop, pending rooms not yet visited. */
  function Swept<C>(rooms: map<Text, Session<C>>, pending: set<Text>, user: Text): map<Text, Session<C>> {
    map r | r in rooms && (r in pending || rooms[r].members - {user} != map[]) ::
      if r in pending then rooms[r] else rooms[r].(members := rooms[r].members - {user})
  }

  /** Visiting one more room, whichever comes up, is one DropMember. */
  lemma SweepStep<C>(rooms: map<Text, Session<C>>, pending: set<Text>, name: Text, user: Text)
    requires name in rooms && name in pending
    ensures DropMember(Swept(rooms, pending, user), name, user) == Swept(rooms, pending - {name}, user)
  {
  }

  /** The same, as the two assignments the code makes. */
  lemma SweepVisit<C>(rooms: map<Text, Session<C>>, swept: map<Text, Session<C>>, pending: set<Text>,
                      name: Text, user: Text)
    requires name in rooms && name in pending && swept == Swept(rooms, pending, user)
    ensures name in swept
    ensures var left := swept[name].members - {user};
            var updated := swept[name := swept[name].(members := left)];
            Swept(rooms, pending - {name}, user) == if |left| == 0 then updated - {name} else updated
  {
    SweepStep(rooms, pending, name, user);
    DropMemberInTwoSteps(swept, name, user);
  }

  lemma SweptAll<C>(s: Router<C>, user: Text)
    ensures Swept(s.rooms, {}, user) == Disconnect(s, user).rooms
  {
  }

  ghost predicate Contains<C>(s: Router<C>, name: Text, user: Text) {
    name in s.rooms && user in s.rooms[name].members
  }

  /** However the rooms holding the user are ordered, and even if some are listed twice or rooms
      without the user are listed too, leaving them in turn and dropping the user is Disconnect. */
  lemma {:induction false} DisconnectIsLeavingEach<C>(s: Router<C>, user: Text, order: seq<Text>)
    requires Sound(s)
    requires forall r | Contains(s, r, user) :: r in order
    ensures var s' := LeaveEach(s, order, user);
            Disconnect(s, user) == s'.(users := s'.users - {user})
    decreases order
  {
    if order == [] {
      assert forall r | r in s.rooms :: s.rooms[r].members - {user} == s.rooms[r].members by {
        assert forall r | r in s.rooms :: !Contains(s, r, user);
      }
      assert Disconnect(s, user).rooms == s.rooms;
    } else {
      var name := order[0];
      if name in s.rooms {
        var s1 := Leave(s, name, user).value;
        LeaveKeepsSound(s, name, user);
        forall r | Contains(s1, r, user) ensures r in order[1..] {
          assert r != name && Contains(s, r, user);
        }
        DisconnectIsLeavingEach(s1, user, order[1..]);
        LeaveThenDisconnect(s, name, user);
      } else {
        assert forall r | Contains(s, r, user) :: r in order[1..];
        DisconnectIsLeavingEach(s, user, order[1..]);
      }
    }
  }

  lemma LeaveThenDisconnect<C>(s: Router<C>, name: Text, user: Text)
    requires name in s.rooms
    ensures Disconnect(Leave(s, name, user).value, user) == Disconnect(s, user)
  {
    var s1 := Leave(s, name, user).value;
    forall r
      ensures r in Disconnect(s1, user).rooms <==> r in Disconnect(s, user).rooms
      ensures r in Disconnect(s, user).rooms ==> Disconnect(s1, user).rooms[r] == Disconnect(s, user).rooms[r]
    {
      if r == name {
        LeaveThenDisconnectHere(s, name, user);
      }
    }
  }

  lemma LeaveThenDisconnectHere<C>(s: Router<C>, name: Text, user: Text)
    requires name in s.rooms
    ensures var s' := Disconnect(Leave(s, name, user).value, user);
            && (name in s'.rooms <==> name in Disconnect(s, user).rooms)
            && (name in s'.rooms ==> s'.rooms[name] == Disconnect(s, user).rooms[name])
  {
    var left := s.rooms[name].members - {user};
    assert left - {user} == left;
  }

  /** Exactly the rooms whose only member was the user go; everyone else's memberships stay. */
  lemma DisconnectTouchesOnlyTheUser<C>(s: Router<C>, user: Text, name: Text, other: Text)
    requires Sound(s) && name in s.rooms && other != user
    ensures var s' := Disconnect(s, user);
            && (name in s'.rooms <==> s.rooms[name].members.Keys != {user})
            && (Contains(s', name, other) <==> Contains(s, name, other))
            && (Contains(s, name, other) ==> s'.rooms[name].members[other] == s.rooms[name].members[other])
            && !Contains(s', name, user)
            && (other in s'.users <==> other in s.users)
            && (other in s.users ==> s'.users[other] == s.users[other])
            && user !in s'.users
  {
    var left := s.rooms[name].members - {user};
    assert left.Keys == s.rooms[name].members.Keys - {user};
    assert left == map[] <==> left.Keys == {};
  }
}
