/** Where the router and the messaging service's room store have a user, throughout a session. */
module Sessions {
  import opened Rooms
  import opened Gateways

  ghost predicate OneSession(hs: map<nat, Handler>, user: Text) {
    forall c, d | LiveFor(hs, c, user) && LiveFor(hs, d, user) :: c == d
  }

  /** The remote calls, publishes and table queries of this user's handlers succeed. */
  ghost predicate Works(hs: map<nat, Handler>, e: Step, user: Text) {
    e.Advance? && e.conn in hs && hs[e.conn].user == user ==> e.up && !e.moment.findFails && !e.moment.createFails
  }

  /** At every moment of the run the user has at most one live session, and the user's own calls
      succeed. Nothing is asked of anyone else's sessions or calls. */
  ghost predicate Undisturbed(t0: Table, es: seq<Step>, user: Text) {
    && (forall i | 0 <= i <= |es| :: OneSession(Run(t0, es[..i]).handlers, user))
    && (forall i | 0 <= i < |es| :: Works(Run(t0, es[..i]).handlers, es[i], user))
  }

  /** The handler has entered the default room and not yet disconnected. */
  predicate Entered(p: Phase) {
    Live(p) && !p.AddingPresence? && !((p.JoiningStore? || p.JoiningRouter?) && p.arrival.Entering?)
  }

  /** The room that the session itself has put into the room store and not taken out. */
  function Kept(h: Handler): set<Text> {
    match h.phase
    case AddingPresence => {}
    case JoiningStore(_, _) => {}
    case JoiningRouter(r, _) => {r}
    case Announcing(left) => if left then {} else {h.room}
    case _ => {h.room}
  }

  ghost predicate RouterTracks(rooms: set<Text>, h: Handler) {
    rooms == h.visited && if Entered(h.phase) then h.room in h.visited else h.visited == {}
  }

  ghost predicate StoreTracks(rooms: set<Text>, h: Handler) {
    rooms == (h.stale - h.visited) + Kept(h)
  }

  ghost predicate TrackedBy(router: Router<nat>, store: Store, h: Handler) {
    RouterTracks(RouterRooms(router, h.user), h) && StoreTracks(StoreRooms(store, h.user), h)
  }

  ghost predicate Tracked(g: Gateway, user: Text) {
    forall c | LiveFor(g.handlers, c, user) :: TrackedBy(g.router, g.store, g.handlers[c])
  }

  // --------------------------------------------------------- what one handler's step changes

  lemma RouterRoomsAfter(router: Router<nat>, t: Table, c: nat, h: Handler, m: Moment, u: Text)
    ensures RouterRooms(RouterAfter(router, t, c, h, m), u) ==
            if u != h.user then RouterRooms(router, u)
            else if h.phase.Disconnecting? then {}
            else if Joins(router, t, h, m) then RouterRooms(router, u) + {h.phase.target}
            else RouterRooms(router, u)
  {
    match h.phase
    case JoiningRouter(r, _) => RoomsAfterJoin(router, t, r, h.user, c, m, u);
    case Disconnecting => RoomsAfterDisconnect(router, h.user, u);
    case _ =>
  }

  lemma RoomsAfterJoin(router: Router<nat>, t: Table, name: Text, user: Text, c: nat, m: Moment, u: Text)
    ensures var (router', _, e) := Join(router, t, name, user, c, m);
            RouterRooms(router', u) ==
            if u == user && e.None? then RouterRooms(router, u) + {name} else RouterRooms(router, u)
  {
  }

  lemma RoomsAfterDisconnect(router: Router<nat>, user: Text, u: Text)
    ensures RouterRooms(Disconnect(router, user), u) == if u == user then {} else RouterRooms(router, u)
  {
    var router' := Disconnect(router, user);
    forall r ensures r in RouterRooms(router', u) <==> u != user && r in RouterRooms(router, u) {
      if r in RouterRooms(router, u) {
        DisconnectHolds(router, user, r, u, router.rooms[r].members[u]);
      }
      if r in RouterRooms(router', u) {
        DisconnectHolds(router, user, r, u, router'.rooms[r].members[u]);
      }
    }
  }

  lemma StoreRoomsAfter(store: Store, t: Table, h: Handler, m: Moment, up: bool, u: Text)
    ensures StoreRooms(StoreAfter(store, t, h, m, up), u) ==
            if u != h.user || !up then StoreRooms(store, u)
            else if h.phase.LeavingStore? then StoreRooms(store, u) - {h.room}
            else if h.phase.JoiningStore? && StoreJoin(store, t, h.phase.target, u, m).2.None?
              then StoreRooms(store, u) + {h.phase.target}
            else StoreRooms(store, u)
  {
    var store' := StoreAfter(store, t, h, m, up);
    forall r
      ensures Listed(store', r, u) <==>
              if u != h.user || !up then Listed(store, r, u)
              else if h.phase.LeavingStore? then Listed(store, r, u) && r != h.room
              else Listed(store, r, u)
                   || (h.phase.JoiningStore? && r == h.phase.target && StoreJoin(store, t, r, u, m).2.None?)
    {
      match h.phase
      case JoiningStore(name, _) => StoreJoinLists(store, t, name, h.user, m, r, u);
      case LeavingStore(_, _) => StoreLeaveLists(store, h.room, h.user, r, u);
      case _ =>
    }
    assert forall r :: r in StoreRooms(store', u) <==> Listed(store', r, u);
    assert forall r :: r in StoreRooms(store, u) <==> Listed(store, r, u);
  }

  lemma OwnRouterStep(rooms: set<Text>, h: Handler)
    requires RouterTracks(rooms, h) && Live(h.phase) && !h.phase.Disconnecting?
    ensures RouterTracks(if h.phase.JoiningRouter? then rooms + {h.phase.target} else rooms,
                         Next(h, h.phase.JoiningRouter?))
  {
  }

  lemma OwnStoreStep(rooms: set<Text>, h: Handler)
    requires StoreTracks(rooms, h) && Live(h.phase) && !h.phase.Disconnecting?
    requires if Entered(h.phase) then h.room in h.visited else h.visited == {}
    ensures StoreTracks(if h.phase.JoiningStore? then rooms + {h.phase.target}
                        else if h.phase.LeavingStore? then rooms - {h.room} else rooms,
                        Next(h, h.phase.JoiningRouter?))
  {
  }

  lemma OwnAdvance(router: Router<nat>, store: Store, t: Table, c: nat, h: Handler, m: Moment)
    requires TrackedBy(router, store, h) && Live(h.phase) && !h.phase.Disconnecting?
    requires !m.findFails && !m.createFails
    ensures TrackedBy(RouterAfter(router, t, c, h, m), StoreAfter(store, t, h, m, true),
                      Next(h, Joins(router, t, h, m)))
  {
    RouterRoomsAfter(router, t, c, h, m, h.user);
    StoreRoomsAfter(store, t, h, m, true, h.user);
    OwnRouterStep(RouterRooms(router, h.user), h);
    OwnStoreStep(StoreRooms(store, h.user), h);
  }

  lemma AdvanceKeepsTracked(g: Gateway, c: nat, m: Moment, up: bool, user: Text)
    requires Tracked(g, user) && OneSession(g.handlers, user) && Works(g.handlers, Advance(c, m, up), user)
    requires c in g.handlers
    ensures Tracked(Do(g, Advance(c, m, up)), user)
  {
    var g', h := Do(g, Advance(c, m, up)), g.handlers[c];
    forall d | LiveFor(g'.handlers, d, user) ensures TrackedBy(g'.router, g'.store, g'.handlers[d]) {
      if h.user == user && Live(h.phase) {
        assert LiveFor(g.handlers, c, user);
        assert d == c;
        OwnAdvance(g.router, g.store, g.table, c, h, m);
      } else {
        assert d != c && LiveFor(g.handlers, d, user);
        RouterRoomsAfter(g.router, g.table, c, h, m, user);
        StoreRoomsAfter(g.store, g.table, h, m, up, user);
      }
    }
  }

  lemma AuthKeepsTracked(g: Gateway, c: nat, u: Text, viaLogin: bool, user: Text)
    requires Safe(g) && Tracked(g, user) && OneSession(Do(g, AuthOk(c, u, viaLogin)).handlers, user)
    ensures Tracked(Do(g, AuthOk(c, u, viaLogin)), user)
  {
    var g' := Do(g, AuthOk(c, u, viaLogin));
    if g' != g {
      if u == user {
        NobodyRouted(g, c, g'.handlers, user);
      }
      forall d | LiveFor(g'.handlers, d, user) ensures TrackedBy(g'.router, g'.store, g'.handlers[d]) {
        assert d != c ==> LiveFor(g.handlers, d, user);
      }
    }
  }

  lemma ControlKeepsTracked(g: Gateway, e: Step, user: Text)
    requires Tracked(g, user) && !e.Advance? && !e.AuthOk?
    ensures Tracked(Do(g, e), user)
  {
    var g' := Do(g, e);
    forall d | LiveFor(g'.handlers, d, user) ensures TrackedBy(g'.router, g'.store, g'.handlers[d]) {
      ControlMovesNobody(g, e, d, user, RouterRooms(g.router, user), StoreRooms(g.store, user));
    }
  }

  /** A live handler was live before, and what it tracks is unchanged. */
  lemma ControlMovesNobody(g: Gateway, e: Step, d: nat, user: Text, routed: set<Text>, listed: set<Text>)
    requires !e.Advance? && !e.AuthOk? && LiveFor(Do(g, e).handlers, d, user)
    ensures LiveFor(g.handlers, d, user) && Do(g, e).router == g.router && Do(g, e).store == g.store
    ensures RouterTracks(routed, g.handlers[d]) ==> RouterTracks(routed, Do(g, e).handlers[d])
    ensures StoreTracks(listed, g.handlers[d]) ==> StoreTracks(listed, Do(g, e).handlers[d])
  {
  }

  lemma StepKeepsTracked(g: Gateway, e: Step, user: Text)
    requires Safe(g) && Tracked(g, user) && Works(g.handlers, e, user)
    requires OneSession(g.handlers, user) && OneSession(Do(g, e).handlers, user)
    ensures Tracked(Do(g, e), user)
  {
    match e
    case Advance(c, m, up) =>
      if c in g.handlers {
        AdvanceKeepsTracked(g, c, m, up, user);
      }
    case AuthOk(c, u, viaLogin) => AuthKeepsTracked(g, c, u, viaLogin, user);
    case _ => ControlKeepsTracked(g, e, user);
  }

  /** When a session begins, nothing of the user's is left in the router. */
  lemma NobodyRouted(g: Gateway, c: nat, hs: map<nat, Handler>, user: Text)
    requires Safe(g) && OneSession(hs, user) && LiveFor(hs, c, user) && !LiveFor(g.handlers, c, user)
    requires forall d | d in g.handlers && d != c :: d in hs && hs[d] == g.handlers[d]
    ensures RouterRooms(g.router, user) == {}
  {
    forall r | r in RouterRooms(g.router, user) ensures false {
      var d := g.router.rooms[r].members[user];
      assert Holds(g.router, r, user, d);
      assert LiveFor(g.handlers, d, user);
      assert LiveFor(hs, d, user);
    }
  }

  lemma {:induction false} EveryRunTracks(t0: Table, es: seq<Step>, user: Text)
    requires Undisturbed(t0, es, user)
    ensures Tracked(Run(t0, es), user)
  {
    if es != [] {
      var n := |es| - 1;
      assert forall i | 0 <= i <= n :: es[..n][..i] == es[..i];
      EveryRunTracks(t0, es[..n], user);
      EveryRunIsSafe(t0, es[..n]);
      assert es[..|es|] == es;
      StepKeepsTracked(Run(t0, es[..n]), es[n], user);
    }
  }

  /** In the command loop, and wherever else a handler broadcasts, the room it broadcasts to exists
      and has the user with this connection; and the user is in every room the session has joined,
      with this connection, and in no other. */
  lemma InEveryRoomVisited(t0: Table, es: seq<Step>, c: nat, r: Text)
    requires c in Run(t0, es).handlers && Entered(Run(t0, es).handlers[c].phase)
    requires Undisturbed(t0, es, Run(t0, es).handlers[c].user)
    ensures var g := Run(t0, es);
            var h := g.handlers[c];
            && Holds(g.router, h.room, h.user, c)
            && (Holds(g.router, r, h.user, c) <==> r in h.visited)
            && (r in RouterRooms(g.router, h.user) <==> r in h.visited)
  {
    var g := Run(t0, es);
    var h := g.handlers[c];
    EveryRunTracks(t0, es, h.user);
    EveryRunIsSafe(t0, es);
    assert LiveFor(g.handlers, c, h.user);
    assert es[..|es|] == es;
    forall r | r in RouterRooms(g.router, h.user) ensures Holds(g.router, r, h.user, c) {
      assert Holds(g.router, r, h.user, g.router.rooms[r].members[h.user]);
    }
  }

  /** The room store lists the current room and whatever stale rooms the session has not been
      through; so it lists exactly the current room iff the session has been through all of them. */
  lemma ListedInTheCurrentRoom(t0: Table, es: seq<Step>, c: nat)
    requires c in Run(t0, es).handlers && Run(t0, es).handlers[c].phase.Looping?
    requires Undisturbed(t0, es, Run(t0, es).handlers[c].user)
    ensures var g := Run(t0, es);
            var h := g.handlers[c];
            && StoreRooms(g.store, h.user) == (h.stale - h.visited) + {h.room}
            && (StoreRooms(g.store, h.user) == {h.room} <==> h.stale <= h.visited)
  {
    var g := Run(t0, es);
    var h := g.handlers[c];
    EveryRunTracks(t0, es, h.user);
    assert LiveFor(g.handlers, c, h.user);
    if StoreRooms(g.store, h.user) == {h.room} {
      forall r | r in h.stale ensures r in h.visited {
        assert r !in h.visited ==> r in StoreRooms(g.store, h.user);
      }
    }
  }

  lemma HangsUp(g: Gateway, c: nat)
    requires c in g.handlers && g.handlers[c].phase.Looping?
    ensures Do(g, Order(c, HangUp)) == Become(g, c, g.handlers[c].(phase := PublishingOffline))
  {
  }

  lemma AnnouncesDeparture(g: Gateway, c: nat, m: Moment, up: bool)
    requires c in g.handlers && g.handlers[c].phase.PublishingOffline?
    ensures var event := if up then [PresenceEvent(g.handlers[c].user, false)] else [];
            Do(g, Advance(c, m, up))
            == Become(g.(queue := g.queue + event), c, g.handlers[c].(phase := Disconnecting))
  {
  }

  lemma LeavesTheRouter(g: Gateway, c: nat, m: Moment, up: bool)
    requires c in g.handlers && g.handlers[c].phase.Disconnecting?
    ensures var g' := Do(g, Advance(c, m, up));
            && RouterRooms(g'.router, g.handlers[c].user) == {}
            && g'.store == g.store && g'.queue == g.queue && g'.online == g.online
            && g'.handlers == g.handlers[c := g.handlers[c].(phase := RemovingPresence)]
  {
    RouterRoomsAfter(g.router, g.table, c, g.handlers[c], m, g.handlers[c].user);
  }

  /** Hanging up empties the router of the user, and leaves the room store as it was: the user stays
      listed until a later session goes through that room. */
  lemma HangUpForgetsTheRoomStore(g: Gateway, c: nat, m: Moment, up: bool)
    requires c in g.handlers && g.handlers[c].phase.Looping?
    ensures var g' := From(g, [Order(c, HangUp), Advance(c, m, up), Advance(c, m, up)]);
            && RouterRooms(g'.router, g.handlers[c].user) == {}
            && g'.store == g.store && g'.online == g.online
            && g'.handlers == g.handlers[c := g.handlers[c].(phase := RemovingPresence)]
            && g'.queue == g.queue + (if up then [PresenceEvent(g.handlers[c].user, false)] else [])
  {
    ThreeSteps(g, Order(c, HangUp), Advance(c, m, up), Advance(c, m, up));
    HangsUp(g, c);
    var g1 := Do(g, Order(c, HangUp));
    AnnouncesDeparture(g1, c, m, up);
    LeavesTheRouter(Do(g1, Advance(c, m, up)), c, m, up);
  }
}
