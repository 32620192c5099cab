/** The chat server as interleaved handlers: any number of connections are accepted, authenticate,
    join rooms, hang up and run their deferred cleanup over shared maps. Each step is one critical
    section of one handler, or the presence service taking one event off its queue. */
module Gateways {
  import opened Rooms
  import opened Registries
  import opened Delivery

  const DEFAULT_ROOM := Ascii("general chat")

  /** Whether a join is the one on entering the server or one from /join or /leave. */
  datatype Arrival = Entering | Moving

  /** What a handler does next. */
  datatype Phase =
    | Authenticating
    | AddingPresence
    | JoiningStore(target: Text, arrival: Arrival)
    | JoiningRouter(target: Text, arrival: Arrival)
    | PublishingOnline
    | Looping
    | LeavingStore(target: Text, announce: bool)
    | Announcing(left: bool)
    | PublishingOffline
    | Disconnecting
    | RemovingPresence
    | Deregistering
    | Closing
    | Closed

  /** A handler's local variables. Two are history: the rooms the messaging service listed the user
      in when the session began, and the rooms the session has joined in the router. */
  datatype Handler = Handler(phase: Phase, user: Text, room: Text, stale: set<Text>, visited: set<Text>)

  datatype PresenceEvent = PresenceEvent(user: Text, isOnline: bool)

  datatype Gateway = Gateway(
    registry: set<nat>, presence: map<Text, nat>, router: Router<nat>, store: Store, table: Table,
    queue: seq<PresenceEvent>, online: set<Text>, handlers: map<nat, Handler>)

  datatype Command = HangUp | JoinRoom(name: Text) | LeaveRoom

  /** Advance runs whatever the handler does next; up is whether the remote call or publish it makes
      gets through, and the moment is how the rooms table behaves meanwhile. */
  datatype Step =
    | Accept(conn: nat)
    | AuthOk(conn: nat, user: Text, viaLogin: bool)
    | AuthFail(conn: nat)
    | Order(conn: nat, command: Command)
    | Advance(conn: nat, moment: Moment, up: bool)
    | Consume

  function NewHandler(): Handler {
    Handler(Authenticating, [], [], {}, {})
  }

  /** The rooms a room store lists the user in. */
  function StoreRooms(s: Store, user: Text): set<Text> {
    set r | r in s && user in s[r].members
  }

  function RouterRooms<C>(s: Router<C>, user: Text): set<Text> {
    set r | r in s.rooms && user in s.rooms[r].members
  }

  /** The handler after the action of its phase. */
  function Next(h: Handler, joined: bool): Handler {
    match h.phase
    case AddingPresence => h.(phase := JoiningStore(DEFAULT_ROOM, Entering))
    case JoiningStore(r, a) => h.(phase := JoiningRouter(r, a))
    case JoiningRouter(r, a) =>
      h.(room := r, visited := h.visited + (if joined then {r} else {}),
         phase := if a.Entering? then PublishingOnline else Announcing(false))
    case PublishingOnline => h.(phase := Looping)
    case LeavingStore(r, announce) => h.(phase := if announce then Announcing(true) else JoiningStore(r, Moving))
    case Announcing(left) => h.(phase := if left then JoiningStore(DEFAULT_ROOM, Moving) else Looping)
    case PublishingOffline => h.(phase := Disconnecting)
    case Disconnecting => h.(phase := RemovingPresence)
    case RemovingPresence => h.(phase := Deregistering)
    case Deregistering => h.(phase := Closing)
    case Closing => h.(phase := Closed)
    case _ => h
  }

  function RegistryAfter(registry: set<nat>, c: nat, h: Handler): set<nat> {
    if h.phase.Deregistering? then registry - {c} else registry
  }

  function PresenceAfter(presence: map<Text, nat>, c: nat, h: Handler): map<Text, nat> {
    match h.phase
    case AddingPresence => presence[h.user := c]
    case RemovingPresence => WithoutConn(presence, c)
    case _ => presence
  }

  function RouterAfter(router: Router<nat>, t: Table, c: nat, h: Handler, m: Moment): Router<nat> {
    match h.phase
    case JoiningRouter(r, _) => Join(router, t, r, h.user, c, m).0
    case Disconnecting => Disconnect(router, h.user)
    case _ => router
  }

  function StoreAfter(store: Store, t: Table, h: Handler, m: Moment, up: bool): Store {
    match h.phase
    case JoiningStore(r, _) => if up then StoreJoin(store, t, r, h.user, m).0 else store
    case LeavingStore(_, _) =>
      var left := StoreLeave(store, h.room, h.user);
      if up && left.Some? then left.value else store
    case _ => store
  }

  function TableAfter(g: Gateway, h: Handler, m: Moment, up: bool): Table {
    match h.phase
    case JoiningStore(r, _) => if up then StoreJoin(g.store, g.table, r, h.user, m).1 else g.table
    case JoiningRouter(r, _) => Join(g.router, g.table, r, h.user, 0, m).1
    case _ => g.table
  }

  function QueueAfter(queue: seq<PresenceEvent>, h: Handler, up: bool): seq<PresenceEvent> {
    if up && (h.phase.PublishingOnline? || h.phase.PublishingOffline?)
    then queue + [PresenceEvent(h.user, h.phase.PublishingOnline?)]
    else queue
  }

  /** Whether the router's JoinRoom succeeds. */
  predicate Joins(router: Router<nat>, t: Table, h: Handler, m: Moment) {
    h.phase.JoiningRouter? && Join(router, t, h.phase.target, h.user, 0, m).2.None?
  }

  function Become(g: Gateway, c: nat, h: Handler): Gateway {
    g.(handlers := g.handlers[c := h])
  }

  function Do(g: Gateway, e: Step): Gateway {
    match e
    case Accept(c) =>
      if c in g.handlers || |g.registry| >= CAPACITY then g
      else Become(g.(registry := g.registry + {c}), c, NewHandler())
    case AuthOk(c, user, viaLogin) =>
      if c !in g.handlers || !g.handlers[c].phase.Authenticating? || (viaLogin && user in g.presence) then g
      else Become(g, c, Handler(AddingPresence, user, DEFAULT_ROOM, StoreRooms(g.store, user), {}))
    case AuthFail(c) =>
      if c !in g.handlers || !g.handlers[c].phase.Authenticating? then g
      else Become(g, c, g.handlers[c].(phase := RemovingPresence))
    case Order(c, command) =>
      if c !in g.handlers || !g.handlers[c].phase.Looping? then g
      else
        Become(g, c, g.handlers[c].(phase :=
          match command
          case HangUp => PublishingOffline
          case JoinRoom(name) => LeavingStore(name, false)
          case LeaveRoom => LeavingStore(DEFAULT_ROOM, true)))
    case Advance(c, m, up) =>
      if c !in g.handlers then g
      else
        var h := g.handlers[c];
        Gateway(
          RegistryAfter(g.registry, c, h), PresenceAfter(g.presence, c, h), RouterAfter(g.router, g.table, c, h, m),
          StoreAfter(g.store, g.table, h, m, up), TableAfter(g, h, m, up), QueueAfter(g.queue, h, up), g.online,
          g.handlers[c := Next(h, Joins(g.router, g.table, h, m))])
    case Consume =>
      if g.queue == [] then g
      else g.(queue := g.queue[1..], online := Marked(g.online, g.queue[0].user, g.queue[0].isOnline))
  }

  function Start(t0: Table): Gateway {
    Gateway({}, map[], Router(map[], map[]), map[], t0, [], {}, map[])
  }

  function From(g: Gateway, es: seq<Step>): Gateway {
    if es == [] then g else Do(From(g, es[..|es| - 1]), es[|es| - 1])
  }

  lemma FromSnoc(g: Gateway, es: seq<Step>, e: Step)
    ensures From(g, es + [e]) == Do(From(g, es), e)
  {
    assert (es + [e])[..|es|] == es;
  }

  lemma ThreeSteps(g: Gateway, a: Step, b: Step, c: Step)
    ensures From(g, [a, b, c]) == Do(Do(Do(g, a), b), c)
  {
    FromSnoc(g, [], a);
    FromSnoc(g, [a], b);
    FromSnoc(g, [a, b], c);
    assert [a, b] + [c] == [a, b, c];
  }

  lemma FourSteps(g: Gateway, a: Step, b: Step, c: Step, d: Step)
    ensures From(g, [a, b, c, d]) == Do(Do(Do(Do(g, a), b), c), d)
  {
    ThreeSteps(g, a, b, c);
    FromSnoc(g, [a, b, c], d);
    assert [a, b, c] + [d] == [a, b, c, d];
  }

  function Run(t0: Table, es: seq<Step>): Gateway {
    From(Start(t0), es)
  }

  // ------------------------------------------------------------ who is where, entry by entry

  ghost predicate Listed(s: Store, room: Text, user: Text) {
    room in s && user in s[room].members
  }

  lemma StoreJoinLists(s: Store, t: Table, name: Text, user: Text, m: Moment, r: Text, u: Text)
    ensures var (s', _, e) := StoreJoin(s, t, name, user, m);
            Listed(s', r, u) <==> Listed(s, r, u) || (e.None? && r == name && u == user)
  {
  }

  lemma StoreLeaveLists(s: Store, name: Text, user: Text, r: Text, u: Text)
    ensures var s' := StoreLeave(s, name, user);
            Listed(if s'.Some? then s'.value else s, r, u) <==> Listed(s, r, u) && !(r == name && u == user)
  {
    if Listed(s, r, u) && !(r == name && u == user) && r == name {
      assert u in s[name].members - {user};
    }
  }

  // ------------------------------------------------------------------ lifecycle safety

  /** Accepted and not yet taken out of the registry. */
  predicate Registered(p: Phase) {
    !p.Closing? && !p.Closed?
  }

  predicate MayHavePresence(p: Phase) {
    Registered(p) && !p.Authenticating? && !p.AddingPresence? && !p.Deregistering?
  }

  /** Past its login and before its router.Disconnect. */
  predicate Live(p: Phase) {
    Registered(p) && !p.Authenticating? && !p.RemovingPresence? && !p.Deregistering?
  }

  ghost predicate LiveFor(hs: map<nat, Handler>, c: nat, user: Text) {
    c in hs && hs[c].user == user && Live(hs[c].phase)
  }

  ghost predicate RegistryKept(registry: set<nat>, hs: map<nat, Handler>) {
    && |registry| <= CAPACITY
    && (forall c | c in registry :: c in hs)
    && (forall c | c in hs :: c in registry <==> Registered(hs[c].phase))
  }

  ghost predicate PresenceKept(presence: map<Text, nat>, hs: map<nat, Handler>) {
    forall u | u in presence ::
      presence[u] in hs && hs[presence[u]].user == u && MayHavePresence(hs[presence[u]].phase)
  }

  ghost predicate RoutesKept(router: Router<nat>, hs: map<nat, Handler>) {
    && (forall r, u, c | Holds(router, r, u, c) :: LiveFor(hs, c, u))
    && (forall u | u in router.users :: LiveFor(hs, router.users[u], u))
  }

  lemma RegistryOnlyShrinks(registry: set<nat>, c: nat, h: Handler)
    ensures |RegistryAfter(registry, c, h)| <= |registry|
  {
    SubsetIsSmaller(RegistryAfter(registry, c, h), registry);
  }

  lemma NextIsRegistered(h: Handler, joined: bool)
    ensures Registered(Next(h, joined).phase) <==> Registered(h.phase) && !h.phase.Deregistering?
  {
  }

  lemma AdvanceKeepsRegistry(registry: set<nat>, hs: map<nat, Handler>, c: nat, joined: bool)
    requires RegistryKept(registry, hs) && c in hs
    ensures RegistryKept(RegistryAfter(registry, c, hs[c]), hs[c := Next(hs[c], joined)])
  {
    var registry', h' := RegistryAfter(registry, c, hs[c]), Next(hs[c], joined);
    RegistryOnlyShrinks(registry, c, hs[c]);
    NextIsRegistered(hs[c], joined);
    assert c in registry' <==> Registered(h'.phase);
    RegistryFollows(registry, registry', hs, c, h');
  }

  lemma RegistryFollows(registry: set<nat>, registry': set<nat>, hs: map<nat, Handler>, c: nat, h: Handler)
    requires RegistryKept(registry, hs) && c in hs && |registry'| <= |registry|
    requires registry' == registry || registry' == registry - {c}
    requires c in registry' <==> Registered(h.phase)
    ensures RegistryKept(registry', hs[c := h])
  {
  }

  lemma SubsetIsSmaller<T>(a: set<T>, b: set<T>)
    requires a <= b
    ensures |a| <= |b|
  {
    assert b == a + (b - a);
  }

  lemma AdvanceKeepsPresence(presence: map<Text, nat>, hs: map<nat, Handler>, c: nat, joined: bool)
    requires PresenceKept(presence, hs) && c in hs
    ensures PresenceKept(PresenceAfter(presence, c, hs[c]), hs[c := Next(hs[c], joined)])
  {
  }

  lemma AdvanceKeepsRoute(router: Router<nat>, t: Table, hs: map<nat, Handler>, c: nat, m: Moment, joined: bool,
                          r: Text, u: Text, d: nat)
    requires RoutesKept(router, hs) && c in hs
    requires Holds(RouterAfter(router, t, c, hs[c], m), r, u, d)
    ensures LiveFor(hs[c := Next(hs[c], joined)], d, u)
  {
    var h := hs[c];
    match h.phase
    case JoiningRouter(name, _) => JoinHolds(router, t, name, h.user, c, m, r, u, d);
    case Disconnecting => DisconnectHolds(router, h.user, r, u, d);
    case _ =>
  }

  lemma AdvanceKeepsRoutes(router: Router<nat>, t: Table, hs: map<nat, Handler>, c: nat, m: Moment, joined: bool)
    requires RoutesKept(router, hs) && c in hs
    ensures RoutesKept(RouterAfter(router, t, c, hs[c], m), hs[c := Next(hs[c], joined)])
  {
    forall r, u, d | Holds(RouterAfter(router, t, c, hs[c], m), r, u, d)
      ensures LiveFor(hs[c := Next(hs[c], joined)], d, u)
    {
      AdvanceKeepsRoute(router, t, hs, c, m, joined, r, u, d);
    }
  }

  ghost predicate Safe(g: Gateway) {
    RegistryKept(g.registry, g.handlers) && PresenceKept(g.presence, g.handlers) && RoutesKept(g.router, g.handlers)
  }

  lemma AcceptKeepsSafe(g: Gateway, c: nat)
    requires Safe(g)
    ensures Safe(Do(g, Accept(c)))
  {
  }

  /** Nobody refers to a handler that is still authenticating, and one in its loop may change phase
      as long as it stays live. */
  lemma ControlKeepsSafe(g: Gateway, c: nat, h: Handler)
    requires Safe(g) && c in g.handlers
    requires g.handlers[c].phase.Authenticating?
             || (MayHavePresence(h.phase) && Live(h.phase) && h.user == g.handlers[c].user)
    requires Registered(g.handlers[c].phase) && Registered(h.phase)
    ensures Safe(Become(g, c, h))
  {
  }

  lemma StepKeepsSafe(g: Gateway, e: Step)
    requires Safe(g)
    ensures Safe(Do(g, e))
  {
    match e
    case Accept(c) => AcceptKeepsSafe(g, c);
    case Consume =>
    case Advance(c, m, _) =>
      if c in g.handlers {
        var joined := Joins(g.router, g.table, g.handlers[c], m);
        AdvanceKeepsRegistry(g.registry, g.handlers, c, joined);
        AdvanceKeepsPresence(g.presence, g.handlers, c, joined);
        AdvanceKeepsRoutes(g.router, g.table, g.handlers, c, m, joined);
      }
    case _ =>
      if Do(g, e) != g {
        ControlKeepsSafe(g, e.conn, Do(g, e).handlers[e.conn]);
      }
  }

  /** Whatever handlers do, in whatever order, duplicate sessions of a username included. */
  lemma {:induction false} EveryRunIsSafe(t0: Table, es: seq<Step>)
    ensures Safe(Run(t0, es))
  {
    if es != [] {
      EveryRunIsSafe(t0, es[..|es| - 1]);
      StepKeepsSafe(Run(t0, es[..|es| - 1]), es[|es| - 1]);
    }
  }

  lemma {:induction false} InjectiveIsSmaller(m: map<Text, nat>, s: set<nat>)
    requires forall u | u in m :: m[u] in s
    requires forall u, v | u in m && v in m && m[u] == m[v] :: u == v
    ensures |m| <= |s|
  {
    if m != map[] {
      var u :| u in m;
      InjectiveIsSmaller(m - {u}, s - {m[u]});
      assert |(m - {u}).Keys| == |m.Keys - {u}| by {
        assert (m - {u}).Keys == m.Keys - {u};
      }
    }
  }

  /** Presence names one connection per user, all of them registered, so no more users are present
      than connections are registered, of which there are at most CAPACITY. */
  lemma OnlineWithinRegistered(t0: Table, es: seq<Step>)
    ensures var g := Run(t0, es);
            && (forall u | u in g.presence :: g.presence[u] in g.registry)
            && (forall u, v | u in g.presence && v in g.presence && g.presence[u] == g.presence[v] :: u == v)
            && |g.presence| <= |g.registry| <= CAPACITY
  {
    EveryRunIsSafe(t0, es);
    var g := Run(t0, es);
    InjectiveIsSmaller(g.presence, g.registry);
  }

  /** A broadcast or direct message goes only to connections whose handlers have not yet run
      router.Disconnect, are still registered and have not closed. */
  lemma MessagesReachOnlyLiveHandlers(t0: Table, es: seq<Step>, room: Text, user: Text)
    ensures var g := Run(t0, es);
            && (room in g.router.rooms && user in g.router.rooms[room].members ==>
                  var c := g.router.rooms[room].members[user];
                  LiveFor(g.handlers, c, user) && c in g.registry)
            && (user in g.router.users ==>
                  LiveFor(g.handlers, g.router.users[user], user) && g.router.users[user] in g.registry)
  {
    EveryRunIsSafe(t0, es);
    var g := Run(t0, es);
    if room in g.router.rooms && user in g.router.rooms[room].members {
      assert Holds(g.router, room, user, g.router.rooms[room].members[user]);
    }
  }

  // -------------------------------------------------------------------------- room ids

  /** The ids cached by the router and by the room store are those of the table. */
  ghost predicate IdsKept<C>(router: Router<C>, store: Store, t: Table) {
    && (forall r | r in router.rooms :: r in t && router.rooms[r].room.id == t[r])
    && (forall r | r in store :: r in t && store[r].id == t[r])
  }

  ghost predicate Grows(t: Table, t': Table) {
    forall r | r in t :: r in t' && t'[r] == t[r]
  }

  lemma AdvanceKeepsIds(g: Gateway, c: nat, h: Handler, m: Moment, up: bool)
    requires IdsKept(g.router, g.store, g.table)
    ensures var t' := TableAfter(g, h, m, up);
            && Grows(g.table, t')
            && IdsKept(RouterAfter(g.router, g.table, c, h, m), StoreAfter(g.store, g.table, h, m, up), t')
  {
    RouterTakesIdsFromTheTable(g.router, g.table, c, h, m);
    StoreTakesIdsFromTheTable(g.store, g.table, h, m, up);
  }

  /** A room that the step puts in the router has the table's id, and the others keep theirs. */
  lemma RouterTakesIdsFromTheTable(router: Router<nat>, t: Table, c: nat, h: Handler, m: Moment)
    ensures var t' := if h.phase.JoiningRouter? then Join(router, t, h.phase.target, h.user, 0, m).1 else t;
            var rooms := RouterAfter(router, t, c, h, m).rooms;
            Grows(t, t') && forall r | r in rooms ::
              if r in router.rooms then rooms[r].room.id == router.rooms[r].room.id
              else r in t' && rooms[r].room.id == t'[r]
  {
  }

  lemma StoreTakesIdsFromTheTable(store: Store, t: Table, h: Handler, m: Moment, up: bool)
    ensures var t' := if up && h.phase.JoiningStore? then StoreJoin(store, t, h.phase.target, h.user, m).1 else t;
            var store' := StoreAfter(store, t, h, m, up);
            Grows(t, t') && forall r | r in store' ::
              if r in store then store'[r].id == store[r].id else r in t' && store'[r].id == t'[r]
  {
  }

  /** The gateway's router and the messaging service's room store, filled at different moments by
      different handlers over one table, never give a room two ids. */
  lemma {:induction false} EveryRunKeepsIds(t0: Table, es: seq<Step>)
    ensures var g := Run(t0, es);
            IdsKept(g.router, g.store, g.table) && Grows(t0, g.table)
  {
    if es != [] {
      var g, e := Run(t0, es[..|es| - 1]), es[|es| - 1];
      EveryRunKeepsIds(t0, es[..|es| - 1]);
      if e.Advance? && e.conn in g.handlers {
        AdvanceKeepsIds(g, e.conn, g.handlers[e.conn], e.moment, e.up);
      } else {
        assert Do(g, e).router == g.router && Do(g, e).store == g.store && Do(g, e).table == g.table;
      }
    }
  }

  lemma RouterAndStoreAgreeOnIds(t0: Table, es: seq<Step>, room: Text)
    requires room in Run(t0, es).router.rooms && room in Run(t0, es).store
    ensures var g := Run(t0, es);
            room in g.table && RoomId(g.router, room) == StoreRoomId(g.store, room) == g.table[room]
  {
    EveryRunKeepsIds(t0, es);
  }
}
