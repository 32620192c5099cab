/** The gateway does not keep a user to one session. When it does, what fails when it does not, and
    exactly when what a session relies on holds all the same. */
module DuplicateSessions {
  import opened Rooms
  import opened Gateways
  import opened Sessions
  import opened PresenceEvents

  lemma {:induction false} FromConcat(g: Gateway, a: seq<Step>, b: seq<Step>)
    ensures From(g, a + b) == From(From(g, a), b)
  {
    if b == [] {
      assert a + b == a;
    } else {
      var front, e := b[..|b| - 1], b[|b| - 1];
      assert b == front + [e] && a + b == (a + front) + [e];
      assert From(g, (a + front) + [e]) == From(From(g, a), front + [e]) by {
        FromConcat(g, a, front);
        OneMoreStep(g, From(g, a), a + front, front, e);
      }
    }
  }

  lemma OneMoreStep(g: Gateway, g': Gateway, es: seq<Step>, es': seq<Step>, e: Step)
    requires From(g, es) == From(g', es')
    ensures From(g, es + [e]) == From(g', es' + [e])
  {
    FromSnoc(g, es, e);
    FromSnoc(g', es', e);
  }

  /** The four actions from a successful login to the command loop. */
  function Entry(c: nat, m: Moment): seq<Step> {
    var step := Advance(c, m, true);
    [step, step, step, step]
  }

  /** The handler once it has entered the default room and reached its command loop. */
  function InTheLoop(h: Handler): Handler {
    h.(phase := Looping, room := DEFAULT_ROOM, visited := h.visited + {DEFAULT_ROOM})
  }

  lemma EntryReachesTheRouter(g: Gateway, c: nat, m: Moment)
    requires c in g.handlers && g.handlers[c].phase.AddingPresence?
    ensures var g' := Do(Do(g, Advance(c, m, true)), Advance(c, m, true));
            && g'.handlers == g.handlers[c := g.handlers[c].(phase := JoiningRouter(DEFAULT_ROOM, Entering))]
            && g'.queue == g.queue && g'.online == g.online
  {
  }

  lemma EntryLeavesTheRouter(g: Gateway, c: nat, m: Moment)
    requires c in g.handlers && g.handlers[c].phase == JoiningRouter(DEFAULT_ROOM, Entering)
    requires !m.findFails && !m.createFails
    ensures var g', h := Do(Do(g, Advance(c, m, true)), Advance(c, m, true)), g.handlers[c];
            && g'.handlers == g.handlers[c := InTheLoop(h)]
            && g'.queue == g.queue + [PresenceEvent(h.user, true)]
            && g'.online == g.online
  {
    assert Joins(g.router, g.table, g.handlers[c], m);
  }

  lemma EntryReachesTheLoop(g: Gateway, c: nat, m: Moment)
    requires c in g.handlers && g.handlers[c].phase.AddingPresence?
    requires !m.findFails && !m.createFails
    ensures var g', h := From(g, Entry(c, m)), g.handlers[c];
            && g'.handlers == g.handlers[c := InTheLoop(h)]
            && g'.queue == g.queue + [PresenceEvent(h.user, true)]
            && g'.online == g.online
  {
    var step := Advance(c, m, true);
    FourSteps(g, step, step, step, step);
    EntryReachesTheRouter(g, c, m);
    EntryLeavesTheRouter(Do(Do(g, step), step), c, m);
  }

  /** Two logins of one user that both look at the presence store before either adds itself. */
  function TwoLogins(user: Text): seq<Step> {
    [Accept(0), Accept(1), AuthOk(0, user, true), AuthOk(1, user, true)]
  }

  function TwoLoginsOneHangUp(user: Text, m: Moment): seq<Step> {
    TwoLogins(user) + Entry(0, m) + Entry(1, m) + HangUpSteps(m)
  }

  lemma TwoAccepts(t0: Table)
    ensures var g := Do(Do(Start(t0), Accept(0)), Accept(1));
            && g.handlers == map[0 := NewHandler(), 1 := NewHandler()]
            && g.presence == map[] && g.store == map[] && g.queue == [] && g.online == {}
  {
    assert Do(Start(t0), Accept(0)).registry == {0};
  }

  lemma TwoLetIn(g: Gateway, user: Text)
    requires g.handlers == map[0 := NewHandler(), 1 := NewHandler()]
    requires g.presence == map[] && g.store == map[]
    ensures var g' := Do(Do(g, AuthOk(0, user, true)), AuthOk(1, user, true));
            var h := Handler(AddingPresence, user, DEFAULT_ROOM, {}, {});
            g'.handlers == map[0 := h, 1 := h] && g'.queue == g.queue && g'.online == g.online
  {
    assert StoreRooms(g.store, user) == {};
  }

  lemma TwoLoginsSucceed(t0: Table, user: Text)
    ensures var g, h := Run(t0, TwoLogins(user)), Handler(AddingPresence, user, DEFAULT_ROOM, {}, {});
            g.handlers == map[0 := h, 1 := h] && g.queue == [] && g.online == {}
  {
    FourSteps(Start(t0), Accept(0), Accept(1), AuthOk(0, user, true), AuthOk(1, user, true));
    TwoAccepts(t0);
    TwoLetIn(Do(Do(Start(t0), Accept(0)), Accept(1)), user);
  }

  function HangUpSteps(m: Moment): seq<Step> {
    [Order(1, HangUp), Advance(1, m, true), Advance(1, m, true)]
  }

  lemma BothEnter(t0: Table, user: Text, m: Moment)
    requires !m.findFails && !m.createFails
    ensures var g, h := From(From(Run(t0, TwoLogins(user)), Entry(0, m)), Entry(1, m)),
                        Handler(Looping, user, DEFAULT_ROOM, {}, {DEFAULT_ROOM});
            g.handlers == map[0 := h, 1 := h]
  {
    assert {} + {DEFAULT_ROOM} == {DEFAULT_ROOM};
    var g1 := Run(t0, TwoLogins(user));
    TwoLoginsSucceed(t0, user);
    EntryReachesTheLoop(g1, 0, m);
    EntryReachesTheLoop(From(g1, Entry(0, m)), 1, m);
  }

  /** In any such state, the one hanging up evicts and hides the other. */
  lemma HangingUpEvicts(g: Gateway, h: Handler, m: Moment)
    requires g.handlers == map[0 := h, 1 := h] && h.phase.Looping?
    ensures var g' := From(g, HangUpSteps(m));
            && 0 in g'.handlers && g'.handlers[0] == h
            && RouterRooms(g'.router, h.user) == {} && h.user !in Applied(g'.online, g'.queue)
  {
    HangUpForgetsTheRoomStore(g, 1, m, true);
    PublishingOneMore(g.online, g.queue, PresenceEvent(h.user, false));
  }

  lemma StagesOfTheRun(t0: Table, user: Text, m: Moment)
    ensures Run(t0, TwoLoginsOneHangUp(user, m))
            == From(From(From(Run(t0, TwoLogins(user)), Entry(0, m)), Entry(1, m)), HangUpSteps(m))
  {
    var a := TwoLogins(user);
    FromConcat(Start(t0), a, Entry(0, m));
    FromConcat(Start(t0), a + Entry(0, m), Entry(1, m));
    FromConcat(Start(t0), a + Entry(0, m) + Entry(1, m), HangUpSteps(m));
  }

  /** For every user and table: both logins get through, and after one session hangs up the other is
      in its command loop, announced, in a room the router no longer has it in, and about to be
      shown offline. */
  lemma TheOtherSessionIsEvicted(t0: Table, user: Text, m: Moment)
    requires !m.findFails && !m.createFails
    ensures var g := Run(t0, TwoLoginsOneHangUp(user, m));
            && 0 in g.handlers && g.handlers[0].phase.Looping? && AnnouncedBy(g.handlers, 0, user)
            && g.handlers[0].room !in RouterRooms(g.router, user)
            && user !in Applied(g.online, g.queue)
  {
    StagesOfTheRun(t0, user, m);
    BothEnter(t0, user, m);
    var g := From(From(Run(t0, TwoLogins(user)), Entry(0, m)), Entry(1, m));
    HangingUpEvicts(g, Handler(Looping, user, DEFAULT_ROOM, {}, {DEFAULT_ROOM}), m);
  }

  /** A session of the user that has added itself to the presence store is the one recorded there. */
  ghost predicate Recorded(g: Gateway, user: Text) {
    forall c | LiveFor(g.handlers, c, user) && !g.handlers[c].phase.AddingPresence? ::
      user in g.presence && g.presence[user] == c
  }

  /** The step lets the user in: a login, unless the presence store already lists them, or a
      registration or refresh, which do not look. */
  predicate Enters(g: Gateway, e: Step, user: Text) {
    && e.AuthOk? && e.user == user && e.conn in g.handlers && g.handlers[e.conn].phase.Authenticating?
    && !(e.viaLogin && user in g.presence)
  }

  /** If the user is let in while a session is live, it is by a login, and not while another session has
      not yet added itself to the presence store. */
  ghost predicate InTurn(g: Gateway, e: Step, user: Text) {
    Enters(g, e, user) ==> forall c | LiveFor(g.handlers, c, user) :: e.viaLogin && !g.handlers[c].phase.AddingPresence?
  }

  lemma AdvanceKeepsRecorded(g: Gateway, c: nat, m: Moment, up: bool, user: Text, d: nat)
    requires OneSession(g.handlers, user) && Recorded(g, user) && c in g.handlers
    requires var hs := Do(g, Advance(c, m, up)).handlers; LiveFor(hs, d, user) && !hs[d].phase.AddingPresence?
    ensures LiveFor(g.handlers, d, user)
    ensures var g' := Do(g, Advance(c, m, up)); user in g'.presence && g'.presence[user] == d
  {
    assert LiveFor(g.handlers, d, user);
    match g.handlers[c].phase
    case AddingPresence => assert g.handlers[c].user == user ==> LiveFor(g.handlers, c, user);
    case _ =>
  }

  lemma OnlyLoginsMakeLive(g: Gateway, e: Step, user: Text, d: nat)
    requires !e.AuthOk? && LiveFor(Do(g, e).handlers, d, user)
    ensures LiveFor(g.handlers, d, user)
  {
  }

  lemma LoginKeepsOneSession(g: Gateway, e: Step, user: Text)
    requires OneSession(g.handlers, user) && Recorded(g, user) && InTurn(g, e, user) && e.AuthOk?
    ensures OneSession(Do(g, e).handlers, user) && Recorded(Do(g, e), user)
  {
    var g' := Do(g, e);
    if Enters(g, e, user) {
      forall d | LiveFor(g'.handlers, d, user) ensures d == e.conn {
        assert d != e.conn ==> LiveFor(g.handlers, d, user);
      }
    } else {
      forall d | LiveFor(g'.handlers, d, user) ensures LiveFor(g.handlers, d, user) && g'.handlers[d] == g.handlers[d] {
      }
    }
  }

  /** A second session is one that was let in out of turn. */
  lemma OneSessionWasInTurn(g: Gateway, e: Step, user: Text)
    requires OneSession(Do(g, e).handlers, user)
    ensures InTurn(g, e, user)
  {
    if Enters(g, e, user) {
      forall c | LiveFor(g.handlers, c, user) ensures false {
        assert LiveFor(Do(g, e).handlers, c, user) && LiveFor(Do(g, e).handlers, e.conn, user);
      }
    }
  }

  lemma StepKeepsOneSession(g: Gateway, e: Step, user: Text)
    requires OneSession(g.handlers, user) && Recorded(g, user) && InTurn(g, e, user)
    ensures OneSession(Do(g, e).handlers, user) && Recorded(Do(g, e), user)
  {
    if e.AuthOk? {
      LoginKeepsOneSession(g, e, user);
    } else {
      var hs := Do(g, e).handlers;
      forall d | LiveFor(hs, d, user) ensures LiveFor(g.handlers, d, user) {
        OnlyLoginsMakeLive(g, e, user, d);
      }
      forall d | LiveFor(hs, d, user) && !hs[d].phase.AddingPresence?
        ensures user in Do(g, e).presence && Do(g, e).presence[user] == d
      {
        if e.Advance? && e.conn in g.handlers {
          AdvanceKeepsRecorded(g, e.conn, e.moment, e.up, user, d);
        }
      }
    }
  }

  lemma OneSessionSoFar(t0: Table, es: seq<Step>, user: Text)
    requires es != [] && AlwaysOneSession(t0, es[..|es| - 1], user) && OneSession(Run(t0, es).handlers, user)
    ensures AlwaysOneSession(t0, es, user)
  {
    var n := |es| - 1;
    forall i | 0 <= i <= |es| ensures OneSession(Run(t0, es[..i]).handlers, user) {
      if i <= n {
        assert es[..n][..i] == es[..i];
      } else {
        assert es[..i] == es;
      }
    }
  }

  lemma {:induction false} InTurnKeepsOneSession(t0: Table, es: seq<Step>, user: Text)
    requires forall i | 0 <= i < |es| :: InTurn(Run(t0, es[..i]), es[i], user)
    ensures AlwaysOneSession(t0, es, user) && Recorded(Run(t0, es), user)
  {
    if es != [] {
      var n := |es| - 1;
      forall i | 0 <= i < n ensures InTurn(Run(t0, es[..n][..i]), es[..n][i], user) {
        assert es[..n][..i] == es[..i];
      }
      InTurnKeepsOneSession(t0, es[..n], user);
      assert es[..n][..n] == es[..n];
      StepKeepsOneSession(Run(t0, es[..n]), es[n], user);
      OneSessionSoFar(t0, es, user);
    }
  }

  /** In every run: the user never has two sessions if and only if registrations and refreshes let them
      in only while no session is live, and logins never while another session has not yet added itself
      to the presence store. */
  lemma OneSessionExactly(t0: Table, es: seq<Step>, user: Text)
    ensures AlwaysOneSession(t0, es, user) <==> forall i | 0 <= i < |es| :: InTurn(Run(t0, es[..i]), es[i], user)
    ensures AlwaysOneSession(t0, es, user) ==> Recorded(Run(t0, es), user)
  {
    if AlwaysOneSession(t0, es, user) {
      forall i | 0 <= i < |es| ensures InTurn(Run(t0, es[..i]), es[i], user) {
        FromSnoc(Start(t0), es[..i], es[i]);
        assert es[..i] + [es[i]] == es[..i + 1];
        OneSessionWasInTurn(Run(t0, es[..i]), es[i], user);
      }
    }
    if forall i | 0 <= i < |es| :: InTurn(Run(t0, es[..i]), es[i], user) {
      InTurnKeepsOneSession(t0, es, user);
    }
  }

  // -------------------------------------------- with any number of sessions, exactly when it works

  /** The step takes an entry of the user's away from connection c: the user is disconnected, or
      another of their sessions joins the room. */
  predicate Displaces(g: Gateway, e: Step, room: Text, user: Text, c: nat) {
    && e.Advance? && e.conn in g.handlers && g.handlers[e.conn].user == user
    && var h := g.handlers[e.conn];
       h.phase.Disconnecting? || (e.conn != c && Joins(g.router, g.table, h, e.moment) && h.phase.target == room)
  }

  lemma EntryStaysExactly(g: Gateway, e: Step, room: Text, user: Text, c: nat)
    requires Holds(g.router, room, user, c)
    ensures Holds(Do(g, e).router, room, user, c) <==> !Displaces(g, e, room, user, c)
  {
    if e.Advance? && e.conn in g.handlers {
      var h := g.handlers[e.conn];
      match h.phase
      case JoiningRouter(name, _) => JoinHolds(g.router, g.table, name, h.user, e.conn, e.moment, room, user, c);
      case Disconnecting => DisconnectHolds(g.router, h.user, room, user, c);
      case _ =>
    }
  }

  ghost predicate EnteredFor(hs: map<nat, Handler>, c: nat, user: Text) {
    c in hs && hs[c].user == user && Entered(hs[c].phase)
  }

  /** Every session of the user that has entered is in its current room, with its own connection. */
  ghost predicate InRooms(g: Gateway, user: Text) {
    forall c | EnteredFor(g.handlers, c, user) :: Holds(g.router, g.handlers[c].room, user, c)
  }

  /** The step is a join of the user's that fails, or takes another of their sessions out of its room. */
  ghost predicate Loses(g: Gateway, e: Step, user: Text) {
    && e.Advance? && e.conn in g.handlers && g.handlers[e.conn].user == user
    && var h := g.handlers[e.conn];
       || (h.phase.JoiningRouter? && !Joins(g.router, g.table, h, e.moment))
       || exists d :: d != e.conn && EnteredFor(g.handlers, d, user) && Displaces(g, e, g.handlers[d].room, user, d)
  }

  /** The acting session itself: in its room afterwards unless its join failed. */
  lemma OwnRoomExactly(g: Gateway, c: nat, m: Moment, up: bool)
    requires c in g.handlers && EnteredFor(Do(g, Advance(c, m, up)).handlers, c, g.handlers[c].user)
    requires var h := g.handlers[c];
             EnteredFor(g.handlers, c, h.user) ==> Holds(g.router, h.room, h.user, c)
    ensures var g', h := Do(g, Advance(c, m, up)), g.handlers[c];
            Holds(g'.router, g'.handlers[c].room, h.user, c) <==>
            !(h.phase.JoiningRouter? && !Joins(g.router, g.table, h, m))
  {
    var h := g.handlers[c];
    match h.phase
    case JoiningRouter(name, _) => JoinHolds(g.router, g.table, name, h.user, c, m, name, h.user, c);
    case _ =>
  }

  lemma OthersStayEntered(g: Gateway, e: Step, user: Text, d: nat)
    requires e.Consume? || d != e.conn
    ensures EnteredFor(Do(g, e).handlers, d, user) <==> EnteredFor(g.handlers, d, user)
    ensures EnteredFor(g.handlers, d, user) ==> Do(g, e).handlers[d] == g.handlers[d]
  {
  }

  lemma OnlyAdvanceEnters(g: Gateway, e: Step, user: Text, d: nat)
    requires !e.Advance? && EnteredFor(Do(g, e).handlers, d, user)
    ensures EnteredFor(g.handlers, d, user) && Do(g, e).handlers[d].room == g.handlers[d].room
    ensures Do(g, e).router == g.router
  {
  }

  lemma LosesOne(g: Gateway, e: Step, user: Text)
    requires InRooms(g, user) && Loses(g, e, user)
    ensures !InRooms(Do(g, e), user)
  {
    var h := g.handlers[e.conn];
    if h.phase.JoiningRouter? && !Joins(g.router, g.table, h, e.moment) {
      OwnRoomExactly(g, e.conn, e.moment, e.up);
      assert EnteredFor(Do(g, e).handlers, e.conn, user);
    } else {
      var d :| d != e.conn && EnteredFor(g.handlers, d, user) && Displaces(g, e, g.handlers[d].room, user, d);
      OthersStayEntered(g, e, user, d);
      EntryStaysExactly(g, e, g.handlers[d].room, user, d);
    }
  }

  lemma LosesNone(g: Gateway, e: Step, user: Text, d: nat)
    requires InRooms(g, user) && !Loses(g, e, user) && EnteredFor(Do(g, e).handlers, d, user)
    ensures Holds(Do(g, e).router, Do(g, e).handlers[d].room, user, d)
  {
    if !e.Advance? {
      OnlyAdvanceEnters(g, e, user, d);
    } else if d == e.conn && d in g.handlers {
      OwnRoomExactly(g, d, e.moment, e.up);
    } else {
      OthersStayEntered(g, e, user, d);
      EntryStaysExactly(g, e, g.handlers[d].room, user, d);
    }
  }

  lemma StepKeepsRoomsExactly(g: Gateway, e: Step, user: Text)
    requires InRooms(g, user)
    ensures InRooms(Do(g, e), user) <==> !Loses(g, e, user)
  {
    if Loses(g, e, user) {
      LosesOne(g, e, user);
    } else {
      forall d | EnteredFor(Do(g, e).handlers, d, user)
        ensures Holds(Do(g, e).router, Do(g, e).handlers[d].room, user, d)
      {
        LosesNone(g, e, user, d);
      }
    }
  }

  /** At every moment of the run. */
  ghost predicate AlwaysInRooms(t0: Table, es: seq<Step>, user: Text) {
    InRooms(Run(t0, es), user) && (es == [] || AlwaysInRooms(t0, es[..|es| - 1], user))
  }

  /** At no step of the run. */
  ghost predicate NeverLoses(t0: Table, es: seq<Step>, user: Text) {
    es == [] || (!Loses(Run(t0, es[..|es| - 1]), es[|es| - 1], user) && NeverLoses(t0, es[..|es| - 1], user))
  }

  /** In every run, with any number of sessions and whatever fails: all of the user's sessions are in
      their rooms at every moment if and only if no join of theirs fails and none of them disconnects,
      or joins another's current room, while that other is still there. */
  lemma {:induction false} InRoomsExactly(t0: Table, es: seq<Step>, user: Text)
    ensures AlwaysInRooms(t0, es, user) <==> NeverLoses(t0, es, user)
  {
    if es != [] {
      var front, e := es[..|es| - 1], es[|es| - 1];
      InRoomsExactly(t0, front, user);
      if InRooms(Run(t0, front), user) {
        StepKeepsRoomsExactly(Run(t0, front), e, user);
      }
    }
  }

  /** The user's offline publish, while another of their sessions is announced. */
  ghost predicate Hides(g: Gateway, e: Step, user: Text) {
    Announces(g.handlers, e, user, false) && exists c :: c != e.conn && AnnouncedBy(g.handlers, c, user)
  }

  lemma StepKeepsNoneMissingExactly(g: Gateway, e: Step, user: Text)
    requires NoneMissing(g, user) && Publishes(g.handlers, e, user)
    ensures NoneMissing(Do(g, e), user) <==> !Hides(g, e, user)
  {
    var g' := Do(g, e);
    StepOnQueue(g, e, user);
    if Hides(g, e, user) {
      var c :| c != e.conn && AnnouncedBy(g.handlers, c, user);
      StepOnHandler(g, e, user, c);
    } else {
      forall c | AnnouncedBy(g'.handlers, c, user) ensures user in Applied(g'.online, g'.queue) {
        StepOnHandler(g, e, user, c);
      }
    }
  }

  ghost predicate AlwaysShown(t0: Table, es: seq<Step>, user: Text) {
    NoneMissing(Run(t0, es), user) && (es == [] || AlwaysShown(t0, es[..|es| - 1], user))
  }

  ghost predicate NeverHides(t0: Table, es: seq<Step>, user: Text) {
    es == [] || (!Hides(Run(t0, es[..|es| - 1]), es[|es| - 1], user) && NeverHides(t0, es[..|es| - 1], user))
  }

  lemma PublishesSoFar(t0: Table, es: seq<Step>, user: Text)
    requires es != [] && AlwaysPublishes(t0, es, user)
    ensures var front, e := es[..|es| - 1], es[|es| - 1];
            AlwaysPublishes(t0, front, user) && Publishes(Run(t0, front).handlers, e, user)
  {
    var front := es[..|es| - 1];
    assert forall i | 0 <= i <= |front| :: front[..i] == es[..i];
  }

  /** In every run whose presence events are published: the user's announced sessions are shown, once
      the queue drains, at every moment if and only if none of them announces its departure while
      another is announced. That nobody else is shown holds in all of them. */
  lemma {:induction false} ShownExactly(t0: Table, es: seq<Step>, user: Text)
    requires AlwaysPublishes(t0, es, user)
    ensures AlwaysShown(t0, es, user) <==> NeverHides(t0, es, user)
    ensures NoGhost(Run(t0, es), user)
  {
    NobodyIsInvented(t0, es, user);
    if es != [] {
      var front, e := es[..|es| - 1], es[|es| - 1];
      PublishesSoFar(t0, es, user);
      ShownExactly(t0, front, user);
      if NoneMissing(Run(t0, front), user) {
        StepKeepsNoneMissingExactly(Run(t0, front), e, user);
      }
    }
  }
}
