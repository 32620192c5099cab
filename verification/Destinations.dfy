/** Where the commands take a session, read off the steps alone; and what each command, carried out
    to its end, leaves behind. */
module Destinations {
  import opened Histories
  import opened Rooms
  import opened Registries
  import opened Gateways
  import opened Sessions
  import opened PresenceEvents

  // --------------------------------------------------------------- where the orders lead

  /** The step is an order that finds handler c in its loop. */
  predicate Orders(hs: map<nat, Handler>, e: Step, c: nat) {
    e.Order? && e.conn == c && c in hs && hs[c].phase.Looping?
  }

  /** The room that the last order but a hang-up sent handler c to, or the one it enters by. */
  function Destination(t0: Table, es: seq<Step>, c: nat): Text {
    if es == [] then DEFAULT_ROOM else
      var front, e := es[..|es| - 1], es[|es| - 1];
      if Orders(Run(t0, front).handlers, e, c) && e.command.JoinRoom? then e.command.name
      else if Orders(Run(t0, front).handlers, e, c) && e.command.LeaveRoom? then DEFAULT_ROOM
      else Destination(t0, front, c)
  }

  /** How far a handler has got with going there. */
  predicate Bound(h: Handler, there: Text) {
    match h.phase
    case Authenticating => there == DEFAULT_ROOM
    case AddingPresence => there == DEFAULT_ROOM
    case JoiningStore(r, _) => r == there
    case JoiningRouter(r, _) => r == there
    case LeavingStore(r, announce) => r == there && (announce ==> there == DEFAULT_ROOM)
    case Announcing(left) => there == if left then DEFAULT_ROOM else h.room
    case PublishingOnline => h.room == there
    case Looping => h.room == there
    case PublishingOffline => h.room == there
    case _ => true
  }

  lemma {:induction false} EveryRunIsBound(t0: Table, es: seq<Step>, c: nat)
    ensures if c in Run(t0, es).handlers then Bound(Run(t0, es).handlers[c], Destination(t0, es, c))
            else Destination(t0, es, c) == DEFAULT_ROOM
  {
    if es != [] {
      var front, e := es[..|es| - 1], es[|es| - 1];
      EveryRunIsBound(t0, front, c);
      StaysBound(Run(t0, front), e, c, Destination(t0, front, c), Destination(t0, es, c));
    }
  }

  lemma StaysBound(g: Gateway, e: Step, c: nat, there: Text, there': Text)
    requires if c in g.handlers then Bound(g.handlers[c], there) else there == DEFAULT_ROOM
    requires there' == if !Orders(g.handlers, e, c) || e.command.HangUp? then there
                       else if e.command.JoinRoom? then e.command.name else DEFAULT_ROOM
    ensures var hs := Do(g, e).handlers;
            if c in hs then Bound(hs[c], there') else there' == DEFAULT_ROOM
  {
    if e.Advance? && e.conn == c && c in g.handlers {
      assert Do(g, e).handlers[c] == Next(g.handlers[c], Joins(g.router, g.table, g.handlers[c], e.moment));
    }
  }

  /** In its loop, a session is in the room that the last order sent it to, or in the default room if
      none did; and so it is when it tells a room that it has come. */
  lemma WhereOrdersLead(t0: Table, es: seq<Step>, c: nat)
    requires c in Run(t0, es).handlers
    ensures var h := Run(t0, es).handlers[c];
            h.phase.Looping? || h.phase == Announcing(false) ==> h.room == Destination(t0, es, c)
  {
    EveryRunIsBound(t0, es, c);
  }

  /** Undisturbed, that is where the router sends its messages and the room store lists it. */
  lemma TheOrderIsCarriedOut(t0: Table, es: seq<Step>, c: nat)
    requires c in Run(t0, es).handlers && Run(t0, es).handlers[c].phase.Looping?
    requires Undisturbed(t0, es, Run(t0, es).handlers[c].user)
    ensures var g, there := Run(t0, es), Destination(t0, es, c);
            && Holds(g.router, there, g.handlers[c].user, c)
            && Listed(g.store, there, g.handlers[c].user)
  {
    var g := Run(t0, es);
    WhereOrdersLead(t0, es, c);
    InEveryRoomVisited(t0, es, c, g.handlers[c].room);
    ListedInTheCurrentRoom(t0, es, c);
    assert g.handlers[c].room in StoreRooms(g.store, g.handlers[c].user);
  }

  // ---------------------------------------------------------- commands, from start to end

  /** The handler left alone for n actions, each in the same world. */
  function Advanced(g: Gateway, c: nat, m: Moment, up: bool, n: nat): Gateway {
    if n == 0 then g else Do(Advanced(g, c, m, up, n - 1), Advance(c, m, up))
  }

  /** From g to g' handler c has become h, its user is in these rooms of the router and of the store,
      and nobody else's rooms, nor who is registered or present, has changed. */
  ghost predicate Moved(g: Gateway, g': Gateway, c: nat, h: Handler, routed: set<Text>, listed: set<Text>) {
    && g'.handlers == g.handlers[c := h]
    && g'.registry == g.registry && g'.presence == g.presence && g'.queue == g.queue && g'.online == g.online
    && RouterRooms(g'.router, h.user) == routed && StoreRooms(g'.store, h.user) == listed
    && (forall u | u != h.user :: RouterRooms(g'.router, u) == RouterRooms(g.router, u))
    && (forall u | u != h.user :: StoreRooms(g'.store, u) == StoreRooms(g.store, u))
  }

  lemma OneStep(g: Gateway, c: nat, m: Moment, up: bool)
    requires c in g.handlers && !m.findFails && !m.createFails
    requires var p := g.handlers[c].phase; p.JoiningStore? || p.JoiningRouter? || p.LeavingStore? || p.Announcing?
    ensures var h := g.handlers[c];
            var routed, listed := RouterRooms(g.router, h.user), StoreRooms(g.store, h.user);
            Moved(g, Do(g, Advance(c, m, up)), c, Next(h, h.phase.JoiningRouter?),
                  RoutedAfter(routed, h), if up then ListedAfter(listed, h) else listed)
  {
    var h := g.handlers[c];
    RouterRoomsAfter(g.router, g.table, c, h, m, h.user);
    StoreRoomsAfter(g.store, g.table, h, m, up, h.user);
    OthersStay(g, c, m, up);
  }

  function RoutedAfter(routed: set<Text>, h: Handler): set<Text> {
    if h.phase.JoiningRouter? then routed + {h.phase.target} else routed
  }

  function ListedAfter(listed: set<Text>, h: Handler): set<Text> {
    match h.phase
    case LeavingStore(_, _) => listed - {h.room}
    case JoiningStore(r, _) => listed + {r}
    case _ => listed
  }

  lemma OthersStay(g: Gateway, c: nat, m: Moment, up: bool)
    requires c in g.handlers
    ensures var g' := Do(g, Advance(c, m, up));
            forall u | u != g.handlers[c].user ::
              RouterRooms(g'.router, u) == RouterRooms(g.router, u) && StoreRooms(g'.store, u) == StoreRooms(g.store, u)
  {
    forall u | u != g.handlers[c].user
      ensures RouterRooms(Do(g, Advance(c, m, up)).router, u) == RouterRooms(g.router, u)
      ensures StoreRooms(Do(g, Advance(c, m, up)).store, u) == StoreRooms(g.store, u)
    {
      RouterRoomsAfter(g.router, g.table, c, g.handlers[c], m, u);
      StoreRoomsAfter(g.store, g.table, g.handlers[c], m, up, u);
    }
  }

  lemma MovedOn(g: Gateway, g1: Gateway, g2: Gateway, c: nat, h1: Handler, h2: Handler,
                routed1: set<Text>, listed1: set<Text>, routed2: set<Text>, listed2: set<Text>)
    requires Moved(g, g1, c, h1, routed1, listed1) && Moved(g1, g2, c, h2, routed2, listed2) && h1.user == h2.user
    ensures Moved(g, g2, c, h2, routed2, listed2)
  {
  }

  /** One more move on the way from g, which set out from g0. */
  lemma OneMove(g: Gateway, g0: Gateway, c: nat, m: Moment, up: bool, k: nat, h: Handler, h': Handler,
                routed: set<Text>, listed: set<Text>)
    requires Moved(g, Advanced(g0, c, m, up, k), c, h, routed, listed) && !m.findFails && !m.createFails
    requires h.phase.JoiningStore? || h.phase.JoiningRouter? || h.phase.LeavingStore? || h.phase.Announcing?
    requires h' == Next(h, h.phase.JoiningRouter?)
    ensures Moved(g, Advanced(g0, c, m, up, k + 1), c, h',
                  RoutedAfter(routed, h), if up then ListedAfter(listed, h) else listed)
  {
    var g1 := Advanced(g0, c, m, up, k);
    OneStep(g1, c, m, up);
    MovedOn(g, g1, Do(g1, Advance(c, m, up)), c, h, h', routed, listed,
            RoutedAfter(routed, h), if up then ListedAfter(listed, h) else listed);
  }

  /** Going to a room, from the moment the handler is about to join it in the store. */
  lemma Arrives(g: Gateway, g0: Gateway, c: nat, m: Moment, up: bool, k: nat, h: Handler, room: Text, arrival: Arrival,
                routed: set<Text>, listed: set<Text>)
    requires Moved(g, Advanced(g0, c, m, up, k), c, h, routed, listed) && h.phase == JoiningStore(room, arrival)
    requires !m.findFails && !m.createFails
    ensures Moved(g, Advanced(g0, c, m, up, k + 2), c,
                  h.(phase := if arrival.Entering? then PublishingOnline else Announcing(false),
                     room := room, visited := h.visited + {room}),
                  routed + {room}, if up then listed + {room} else listed)
  {
    var h1 := h.(phase := JoiningRouter(room, arrival));
    var h2 := h.(phase := if arrival.Entering? then PublishingOnline else Announcing(false),
                 room := room, visited := h.visited + {room});
    OneMove(g, g0, c, m, up, k, h, h1, routed, listed);
    OneMove(g, g0, c, m, up, k + 1, h1, h2, routed, if up then listed + {room} else listed);
  }

  /** The way of a /join or /leave from the departure on: into that room, and back in the loop. */
  lemma Returns(g: Gateway, g0: Gateway, c: nat, m: Moment, up: bool, k: nat, h: Handler, room: Text,
                routed: set<Text>, listed: set<Text>)
    requires Moved(g, Advanced(g0, c, m, up, k), c, h, routed, listed) && h.phase == JoiningStore(room, Moving)
    requires !m.findFails && !m.createFails
    ensures Moved(g, Advanced(g0, c, m, up, k + 3), c,
                  h.(phase := Looping, room := room, visited := h.visited + {room}),
                  routed + {room}, if up then listed + {room} else listed)
  {
    var h2 := h.(phase := Announcing(false), room := room, visited := h.visited + {room});
    var routed', listed' := routed + {room}, if up then listed + {room} else listed;
    assert Moved(g, Advanced(g0, c, m, up, k + 2), c, h2, routed', listed') by {
      Arrives(g, g0, c, m, up, k, h, room, Moving, routed, listed);
    }
    OneMove(g, g0, c, m, up, k + 2, h2, h2.(phase := Looping), routed', listed');
  }

  lemma Ordered(g: Gateway, c: nat, command: Command, m: Moment, up: bool)
    requires c in g.handlers && g.handlers[c].phase.Looping?
    ensures var h := g.handlers[c];
            var phase := match command
                         case HangUp => PublishingOffline
                         case JoinRoom(name) => LeavingStore(name, false)
                         case LeaveRoom => LeavingStore(DEFAULT_ROOM, true);
            Moved(g, Advanced(Do(g, Order(c, command)), c, m, up, 0), c, h.(phase := phase),
                  RouterRooms(g.router, h.user), StoreRooms(g.store, h.user))
  {
  }

  /** /join: the session ends up in the room named, the router has added it there, the room store has
      moved it there, and nothing else about who is where, registered or present has changed. */
  lemma JoinRoomTakesItThere(g: Gateway, c: nat, name: Text, m: Moment, up: bool)
    requires c in g.handlers && g.handlers[c].phase.Looping? && !m.findFails && !m.createFails
    ensures var h := g.handlers[c];
            var routed, listed := RouterRooms(g.router, h.user), StoreRooms(g.store, h.user);
            Moved(g, Advanced(Do(g, Order(c, JoinRoom(name))), c, m, up, 4), c,
                  h.(room := name, visited := h.visited + {name}),
                  routed + {name}, if up then listed - {h.room} + {name} else listed)
  {
    var h, g0 := g.handlers[c], Do(g, Order(c, JoinRoom(name)));
    Ordered(g, c, JoinRoom(name), m, up);
    TakesItThere(g, g0, c, m, up, h, name, RouterRooms(g.router, h.user), StoreRooms(g.store, h.user));
  }

  lemma TakesItThere(g: Gateway, g0: Gateway, c: nat, m: Moment, up: bool, h: Handler, name: Text,
                     routed: set<Text>, listed: set<Text>)
    requires Moved(g, Advanced(g0, c, m, up, 0), c, h.(phase := LeavingStore(name, false)), routed, listed)
    requires h.phase.Looping? && !m.findFails && !m.createFails
    ensures Moved(g, Advanced(g0, c, m, up, 4), c, h.(room := name, visited := h.visited + {name}),
                  routed + {name}, if up then listed - {h.room} + {name} else listed)
  {
    var h1 := h.(phase := JoiningStore(name, Moving));
    OneMove(g, g0, c, m, up, 0, h.(phase := LeavingStore(name, false)), h1, routed, listed);
    Returns(g, g0, c, m, up, 1, h1, name, routed, if up then listed - {h.room} else listed);
  }

  /** /leave: the same with the default room, whatever room the session was in. */
  lemma LeaveRoomTakesItHome(g: Gateway, c: nat, m: Moment, up: bool)
    requires c in g.handlers && g.handlers[c].phase.Looping? && !m.findFails && !m.createFails
    ensures var h := g.handlers[c];
            var routed, listed := RouterRooms(g.router, h.user), StoreRooms(g.store, h.user);
            Moved(g, Advanced(Do(g, Order(c, LeaveRoom)), c, m, up, 5), c,
                  h.(room := DEFAULT_ROOM, visited := h.visited + {DEFAULT_ROOM}),
                  routed + {DEFAULT_ROOM}, if up then listed - {h.room} + {DEFAULT_ROOM} else listed)
  {
    var h, g0 := g.handlers[c], Do(g, Order(c, LeaveRoom));
    Ordered(g, c, LeaveRoom, m, up);
    TakesItHome(g, g0, c, m, up, h, RouterRooms(g.router, h.user), StoreRooms(g.store, h.user));
  }

  lemma TakesItHome(g: Gateway, g0: Gateway, c: nat, m: Moment, up: bool, h: Handler,
                    routed: set<Text>, listed: set<Text>)
    requires Moved(g, Advanced(g0, c, m, up, 0), c, h.(phase := LeavingStore(DEFAULT_ROOM, true)), routed, listed)
    requires h.phase.Looping? && !m.findFails && !m.createFails
    ensures Moved(g, Advanced(g0, c, m, up, 5), c, h.(room := DEFAULT_ROOM, visited := h.visited + {DEFAULT_ROOM}),
                  routed + {DEFAULT_ROOM}, if up then listed - {h.room} + {DEFAULT_ROOM} else listed)
  {
    var left := if up then listed - {h.room} else listed;
    var h2 := h.(phase := JoiningStore(DEFAULT_ROOM, Moving));
    SaysItLeaves(g, g0, c, m, up, h, routed, listed);
    Returns(g, g0, c, m, up, 2, h2, DEFAULT_ROOM, routed, left);
  }

  lemma SaysItLeaves(g: Gateway, g0: Gateway, c: nat, m: Moment, up: bool, h: Handler,
                     routed: set<Text>, listed: set<Text>)
    requires Moved(g, Advanced(g0, c, m, up, 0), c, h.(phase := LeavingStore(DEFAULT_ROOM, true)), routed, listed)
    requires !m.findFails && !m.createFails
    ensures Moved(g, Advanced(g0, c, m, up, 2), c, h.(phase := JoiningStore(DEFAULT_ROOM, Moving)),
                  routed, if up then listed - {h.room} else listed)
  {
    var left := if up then listed - {h.room} else listed;
    var h1, h2 := h.(phase := Announcing(true)), h.(phase := JoiningStore(DEFAULT_ROOM, Moving));
    OneMove(g, g0, c, m, up, 0, h.(phase := LeavingStore(DEFAULT_ROOM, true)), h1, routed, listed);
    OneMove(g, g0, c, m, up, 1, h1, h2, routed, left);
  }

  // ------------------------------------------------------------- sessions, from start to end

  /** A session that the auth service let in: present under this connection, in the default room of
      router and store, and announced, with everybody else as they were. */
  lemma EntersTheDefaultRoom(g: Gateway, c: nat, user: Text, viaLogin: bool, m: Moment, up: bool)
    requires c in g.handlers && g.handlers[c].phase.Authenticating? && !(viaLogin && user in g.presence)
    requires !m.findFails && !m.createFails
    ensures var routed, listed := RouterRooms(g.router, user), StoreRooms(g.store, user);
            var event := if up then [PresenceEvent(user, true)] else [];
            Moved(g.(presence := g.presence[user := c], queue := g.queue + event),
                  Advanced(Do(g, AuthOk(c, user, viaLogin)), c, m, up, 4), c,
                  Handler(Looping, user, DEFAULT_ROOM, listed, {DEFAULT_ROOM}),
                  routed + {DEFAULT_ROOM}, if up then listed + {DEFAULT_ROOM} else listed)
  {
    var g0 := Do(g, AuthOk(c, user, viaLogin));
    BecomesPresent(g, g0, c, user, m, up, StoreRooms(g.store, user));
    EntersFrom(g.(presence := g.presence[user := c]), g0, c, user, DEFAULT_ROOM, m, up,
               RouterRooms(g.router, user), StoreRooms(g.store, user));
  }

  lemma BecomesPresent(g: Gateway, g0: Gateway, c: nat, user: Text, m: Moment, up: bool, listed: set<Text>)
    requires g0 == Become(g, c, Handler(AddingPresence, user, DEFAULT_ROOM, listed, {}))
    requires listed == StoreRooms(g.store, user)
    ensures Moved(g.(presence := g.presence[user := c]), Advanced(g0, c, m, up, 1), c,
                  Handler(JoiningStore(DEFAULT_ROOM, Entering), user, DEFAULT_ROOM, listed, {}),
                  RouterRooms(g.router, user), listed)
  {
    assert Advanced(g0, c, m, up, 0) == g0;
  }

  lemma EntersFrom(g: Gateway, g0: Gateway, c: nat, user: Text, room: Text, m: Moment, up: bool,
                   routed: set<Text>, listed: set<Text>)
    requires Moved(g, Advanced(g0, c, m, up, 1), c,
                   Handler(JoiningStore(room, Entering), user, room, listed, {}), routed, listed)
    requires !m.findFails && !m.createFails
    ensures var event := if up then [PresenceEvent(user, true)] else [];
            Moved(g.(queue := g.queue + event), Advanced(g0, c, m, up, 4), c,
                  Handler(Looping, user, room, listed, {room}),
                  routed + {room}, if up then listed + {room} else listed)
  {
    var h := Handler(JoiningStore(room, Entering), user, room, listed, {});
    var h' := Handler(PublishingOnline, user, room, listed, {room});
    var routed', listed' := routed + {room}, if up then listed + {room} else listed;
    assert Moved(g, Advanced(g0, c, m, up, 3), c, h', routed', listed') by {
      assert h.visited + {room} == h'.visited;
      Arrives(g, g0, c, m, up, 1, h, room, Entering, routed, listed);
    }
    AnnouncesArrival(g, g0, c, m, up, 3, h', routed', listed');
  }

  lemma AnnouncesArrival(g: Gateway, g0: Gateway, c: nat, m: Moment, up: bool, k: nat, h: Handler,
                         routed: set<Text>, listed: set<Text>)
    requires Moved(g, Advanced(g0, c, m, up, k), c, h, routed, listed) && h.phase.PublishingOnline?
    ensures var event := if up then [PresenceEvent(h.user, true)] else [];
            Moved(g.(queue := g.queue + event), Advanced(g0, c, m, up, k + 1), c, h.(phase := Looping), routed, listed)
  {
  }

  /** On its way out or gone: the handler has become h, the registry, the presence store and the queue
      are these, its user is in these rooms of the router, and everyone else is as they were. */
  ghost predicate Departing(g: Gateway, g': Gateway, c: nat, h: Handler, registry: set<nat>,
                            presence: map<Text, nat>, queue: seq<PresenceEvent>, routed: set<Text>) {
    && g'.handlers == g.handlers[c := h]
    && g'.registry == registry && g'.presence == presence && g'.queue == queue
    && RouterRooms(g'.router, h.user) == routed && g'.store == g.store && g'.online == g.online
    && (forall u | u != h.user :: RouterRooms(g'.router, u) == RouterRooms(g.router, u))
  }

  /** Everyone who is present under another connection. */
  function PresentElsewhere(g: Gateway, c: nat): map<Text, nat> {
    map u | u in g.presence && g.presence[u] != c :: g.presence[u]
  }

  lemma OneStepOut(g: Gateway, g0: Gateway, c: nat, m: Moment, up: bool, k: nat, h: Handler, h': Handler,
                   registry: set<nat>, presence: map<Text, nat>, queue: seq<PresenceEvent>, routed: set<Text>)
    requires Departing(g, Advanced(g0, c, m, up, k), c, h, registry, presence, queue, routed)
    requires h.phase.PublishingOffline? || h.phase.Disconnecting? || h.phase.RemovingPresence?
             || h.phase.Deregistering? || h.phase.Closing?
    requires h' == Next(h, false)
    ensures Departing(g, Advanced(g0, c, m, up, k + 1), c, h',
                      if h.phase.Deregistering? then registry - {c} else registry,
                      if h.phase.RemovingPresence? then WithoutConn(presence, c) else presence,
                      if h.phase.PublishingOffline? && up then queue + [PresenceEvent(h.user, false)] else queue,
                      if h.phase.Disconnecting? then {} else routed)
  {
    var g1 := Advanced(g0, c, m, up, k);
    RouterRoomsAfter(g1.router, g1.table, c, h, m, h.user);
    OthersStay(g1, c, m, up);
  }

  lemma Departs(g: Gateway, g0: Gateway, c: nat, m: Moment, up: bool, k: nat, h: Handler,
                queue: seq<PresenceEvent>, routed: set<Text>)
    requires Departing(g, Advanced(g0, c, m, up, k), c, h, g.registry, g.presence, queue, routed)
    requires h.phase.RemovingPresence?
    ensures Departing(g, Advanced(g0, c, m, up, k + 3), c, h.(phase := Closed), g.registry - {c},
                      PresentElsewhere(g, c), queue, routed)
  {
    var h1, h2, h3 := h.(phase := Deregistering), h.(phase := Closing), h.(phase := Closed);
    NoLongerPresent(g, g0, c, m, up, k, h, h1, queue, routed);
    OneStepOut(g, g0, c, m, up, k + 1, h1, h2, g.registry, PresentElsewhere(g, c), queue, routed);
    OneStepOut(g, g0, c, m, up, k + 2, h2, h3, g.registry - {c}, PresentElsewhere(g, c), queue, routed);
  }

  lemma NoLongerPresent(g: Gateway, g0: Gateway, c: nat, m: Moment, up: bool, k: nat, h: Handler, h': Handler,
                        queue: seq<PresenceEvent>, routed: set<Text>)
    requires Departing(g, Advanced(g0, c, m, up, k), c, h, g.registry, g.presence, queue, routed)
    requires h.phase.RemovingPresence? && h' == h.(phase := Deregistering)
    ensures Departing(g, Advanced(g0, c, m, up, k + 1), c, h', g.registry, PresentElsewhere(g, c), queue, routed)
  {
    OneStepOut(g, g0, c, m, up, k, h, h', g.registry, g.presence, queue, routed);
    assert PresentElsewhere(g, c) == WithoutConn(g.presence, c);
  }

  /** A hang-up, once the deferred calls have run: closed, unregistered, not present under this
      connection, out of every room of the router, and announced as gone. */
  lemma HangUpLeavesNothingBehind(g: Gateway, c: nat, m: Moment, up: bool)
    requires c in g.handlers && g.handlers[c].phase.Looping?
    ensures var h := g.handlers[c];
            Departing(g, Advanced(Do(g, Order(c, HangUp)), c, m, up, 5), c, h.(phase := Closed), g.registry - {c},
                      PresentElsewhere(g, c), if up then g.queue + [PresenceEvent(h.user, false)] else g.queue, {})
  {
    var h, g0 := g.handlers[c], Do(g, Order(c, HangUp));
    HangsUp(g, c);
    HangsUpFrom(g, g0, c, m, up, h, RouterRooms(g.router, h.user));
  }

  lemma HangsUpFrom(g: Gateway, g0: Gateway, c: nat, m: Moment, up: bool, h: Handler, routed: set<Text>)
    requires g0 == Become(g, c, h.(phase := PublishingOffline)) && routed == RouterRooms(g.router, h.user)
    ensures Departing(g, Advanced(g0, c, m, up, 5), c, h.(phase := Closed), g.registry - {c},
                      PresentElsewhere(g, c), if up then g.queue + [PresenceEvent(h.user, false)] else g.queue, {})
  {
    var h1, h2, h3 := h.(phase := PublishingOffline), h.(phase := Disconnecting), h.(phase := RemovingPresence);
    var queue := if up then g.queue + [PresenceEvent(h.user, false)] else g.queue;
    OneStepOut(g, g0, c, m, up, 0, h1, h2, g.registry, g.presence, g.queue, routed);
    OneStepOut(g, g0, c, m, up, 1, h2, h3, g.registry, g.presence, queue, routed);
    Departs(g, g0, c, m, up, 2, h3, queue, {});
  }

  /** A connection lost before it was let in: the same, with the router and the queue as they were. */
  lemma FailureLeavesNothingBehind(g: Gateway, c: nat, m: Moment, up: bool)
    requires c in g.handlers && g.handlers[c].phase.Authenticating?
    ensures var h := g.handlers[c];
            Departing(g, Advanced(Do(g, AuthFail(c)), c, m, up, 3), c, h.(phase := Closed), g.registry - {c},
                      PresentElsewhere(g, c), g.queue, RouterRooms(g.router, h.user))
  {
    var h, g0 := g.handlers[c].(phase := RemovingPresence), Do(g, AuthFail(c));
    assert Departing(g, Advanced(g0, c, m, up, 0), c, h, g.registry, g.presence, g.queue,
                     RouterRooms(g.router, h.user));
    Departs(g, g0, c, m, up, 0, h, g.queue, RouterRooms(g.router, h.user));
  }

  // ------------------------------------------------------------------------- accepting

  /** The step is an accept that found room for the connection. */
  ghost predicate FindsRoom(g: Gateway, e: Step, c: nat) {
    e == Accept(c) && |g.registry| < CAPACITY
  }

  ghost function AcceptedAt(t0: Table, es: seq<Step>, c: nat): nat -> bool {
    (i: nat) => i < |es| && FindsRoom(Run(t0, es[..i]), es[i], c)
  }

  /** A connection has a handler exactly when some accept of it found fewer than CAPACITY registered;
      it is registered from then until its handler's registry.Remove. */
  lemma AcceptedExactly(t0: Table, es: seq<Step>, c: nat)
    ensures c in Run(t0, es).handlers <==> exists i: nat | i < |es| :: AcceptedAt(t0, es, c)(i)
    ensures c in Run(t0, es).registry <==> c in Run(t0, es).handlers && Registered(Run(t0, es).handlers[c].phase)
  {
    HandledExactly(t0, es, c);
    EveryRunIsSafe(t0, es);
  }

  lemma {:induction false} HandledExactly(t0: Table, es: seq<Step>, c: nat)
    ensures c in Run(t0, es).handlers <==> exists i: nat | i < |es| :: AcceptedAt(t0, es, c)(i)
  {
    if es != [] {
      var n := |es| - 1;
      HandledExactly(t0, es[..n], c);
      SameAccepts(t0, es, c);
      OneAccept(Run(t0, es[..n]), es[n], c);
    }
  }

  lemma SameAccepts(t0: Table, es: seq<Step>, c: nat)
    requires es != []
    ensures var n := |es| - 1;
            && AlikeBefore(AcceptedAt(t0, es, c), AcceptedAt(t0, es[..n], c), n)
            && AcceptedAt(t0, es, c)(n) == FindsRoom(Run(t0, es[..n]), es[n], c)
  {
    var n := |es| - 1;
    assert forall i: nat | i < n :: es[..n][..i] == es[..i];
  }

  lemma OneAccept(g: Gateway, e: Step, c: nat)
    ensures c in Do(g, e).handlers <==> c in g.handlers || FindsRoom(g, e, c)
  {
  }

  // ------------------------------------------------------------------- the presence service

  /** Left to itself, the presence service shows exactly what the queued events say. */
  lemma {:induction false} QueueDrains(g: Gateway)
    ensures var g' := From(g, seq(|g.queue|, _ => Consume));
            g' == g.(queue := [], online := Applied(g.online, g.queue))
    decreases |g.queue|
  {
    var n := |g.queue|;
    if n > 0 {
      var g1 := Do(g, Consume);
      QueueDrains(g1);
      TakingOneChangesNothing(g.online, g.queue);
      assert seq(n, _ => Consume) == [Consume] + seq(n - 1, _ => Consume);
      FromFirst(g, Consume, seq(n - 1, _ => Consume));
    }
  }

  lemma {:induction false} FromFirst(g: Gateway, e: Step, es: seq<Step>)
    ensures From(g, [e] + es) == From(Do(g, e), es)
  {
    if es == [] {
      FromSnoc(g, [], e);
      assert [e] + es == [] + [e];
    } else {
      var front, last := es[..|es| - 1], es[|es| - 1];
      FromFirst(g, e, front);
      assert es == front + [last];
      FromFirstSnoc(g, Do(g, e), e, front, last);
    }
  }

  lemma FromFirstSnoc(g: Gateway, g1: Gateway, e: Step, front: seq<Step>, last: Step)
    requires From(g, [e] + front) == From(g1, front)
    ensures From(g, [e] + (front + [last])) == From(g1, front + [last])
  {
    FromSnoc(g, [e] + front, last);
    FromSnoc(g1, front, last);
    assert [e] + (front + [last]) == ([e] + front) + [last];
  }
}
