/** The presence service's view of who is online, against the handlers that have announced their
    user and not yet announced the departure. */
module PresenceEvents {
  import opened Rooms
  import opened Registries
  import opened Gateways
  import opened Sessions

  /** The online store once the queued events have been taken off in order. */
  function Applied(online: set<Text>, queue: seq<PresenceEvent>): set<Text> {
    if queue == [] then online else
      var n := |queue| - 1;
      Marked(Applied(online, queue[..n]), queue[n].user, queue[n].isOnline)
  }

  lemma {:induction false} TakingOneChangesNothing(online: set<Text>, queue: seq<PresenceEvent>)
    requires queue != []
    ensures Applied(Marked(online, queue[0].user, queue[0].isOnline), queue[1..]) == Applied(online, queue)
  {
    var n := |queue| - 1;
    if n == 0 {
      assert queue[..0] == [];
    } else {
      TakingOneChangesNothing(online, queue[..n]);
      assert queue[..n][1..] == queue[1..][..n - 1];
      assert queue[1..][n - 1] == queue[n];
    }
  }

  lemma PublishingOneMore(online: set<Text>, queue: seq<PresenceEvent>, e: PresenceEvent)
    ensures Applied(online, queue + [e]) == Marked(Applied(online, queue), e.user, e.isOnline)
  {
    assert (queue + [e])[..|queue|] == queue;
  }

  /** Between its online and its offline publish. */
  predicate Announced(p: Phase) {
    Entered(p) && !p.PublishingOnline? && !p.Disconnecting?
  }

  ghost predicate AnnouncedBy(hs: map<nat, Handler>, c: nat, user: Text) {
    c in hs && hs[c].user == user && Announced(hs[c].phase)
  }

  /** The step is the user's online (offline) publish. */
  predicate Announces(hs: map<nat, Handler>, e: Step, user: Text, isOnline: bool) {
    && e.Advance? && e.conn in hs && hs[e.conn].user == user
    && (if isOnline then hs[e.conn].phase.PublishingOnline? else hs[e.conn].phase.PublishingOffline?)
  }

  /** The user's presence events are published. */
  ghost predicate Publishes(hs: map<nat, Handler>, e: Step, user: Text) {
    Announces(hs, e, user, true) || Announces(hs, e, user, false) ==> e.up
  }

  ghost predicate AlwaysPublishes(t0: Table, es: seq<Step>, user: Text) {
    forall i | 0 <= i < |es| :: Publishes(Run(t0, es[..i]).handlers, es[i], user)
  }

  ghost predicate AlwaysOneSession(t0: Table, es: seq<Step>, user: Text) {
    forall i | 0 <= i <= |es| :: OneSession(Run(t0, es[..i]).handlers, user)
  }

  ghost predicate NoGhost(g: Gateway, user: Text) {
    user in Applied(g.online, g.queue) ==> exists c :: AnnouncedBy(g.handlers, c, user)
  }

  ghost predicate NoneMissing(g: Gateway, user: Text) {
    forall c | AnnouncedBy(g.handlers, c, user) :: user in Applied(g.online, g.queue)
  }

  lemma StepOnQueue(g: Gateway, e: Step, user: Text)
    requires Publishes(g.handlers, e, user)
    ensures user in Applied(Do(g, e).online, Do(g, e).queue) <==>
            Announces(g.handlers, e, user, true)
            || (user in Applied(g.online, g.queue) && !Announces(g.handlers, e, user, false))
  {
    match e
    case Advance(c, m, up) =>
      if c in g.handlers {
        var h := g.handlers[c];
        PublishingOneMore(g.online, g.queue, PresenceEvent(h.user, h.phase.PublishingOnline?));
      }
    case Consume =>
      if g.queue != [] {
        TakingOneChangesNothing(g.online, g.queue);
      }
    case _ =>
  }

  lemma StepOnHandler(g: Gateway, e: Step, user: Text, c: nat)
    ensures AnnouncedBy(Do(g, e).handlers, c, user) <==>
            (!e.Consume? && c == e.conn && Announces(g.handlers, e, user, true))
            || (AnnouncedBy(g.handlers, c, user)
                && !(!e.Consume? && c == e.conn && Announces(g.handlers, e, user, false)))
  {
    match e
    case Advance(d, _, _) =>
      if d in g.handlers && c != d {
        assert c in Do(g, e).handlers <==> c in g.handlers;
      }
    case _ =>
  }

  lemma StepKeepsNoGhost(g: Gateway, e: Step, user: Text)
    requires NoGhost(g, user) && Publishes(g.handlers, e, user)
    ensures NoGhost(Do(g, e), user)
  {
    StepOnQueue(g, e, user);
    if user in Applied(Do(g, e).online, Do(g, e).queue) {
      if Announces(g.handlers, e, user, true) {
        StepOnHandler(g, e, user, e.conn);
      } else {
        var c :| AnnouncedBy(g.handlers, c, user);
        StepOnHandler(g, e, user, c);
      }
    }
  }

  lemma StepKeepsNoneMissing(g: Gateway, e: Step, user: Text)
    requires NoneMissing(g, user) && Publishes(g.handlers, e, user) && OneSession(g.handlers, user)
    ensures NoneMissing(Do(g, e), user)
  {
    StepOnQueue(g, e, user);
    forall c | AnnouncedBy(Do(g, e).handlers, c, user) ensures user in Applied(Do(g, e).online, Do(g, e).queue) {
      StepOnHandler(g, e, user, c);
      if Announces(g.handlers, e, user, false) {
        assert LiveFor(g.handlers, c, user) && LiveFor(g.handlers, e.conn, user);
      }
    }
  }

  /** Nobody is shown online, once the queue drains, without a handler that has announced them and
      not yet announced their departure; this needs no bound on sessions. */
  lemma {:induction false} NobodyIsInvented(t0: Table, es: seq<Step>, user: Text)
    requires AlwaysPublishes(t0, es, user)
    ensures NoGhost(Run(t0, es), user)
  {
    if es != [] {
      var n := |es| - 1;
      assert forall i | 0 <= i <= n :: es[..n][..i] == es[..i];
      NobodyIsInvented(t0, es[..n], user);
      StepKeepsNoGhost(Run(t0, es[..n]), es[n], user);
    }
  }

  lemma {:induction false} NobodyIsMissed(t0: Table, es: seq<Step>, user: Text)
    requires AlwaysPublishes(t0, es, user) && AlwaysOneSession(t0, es, user)
    ensures NoneMissing(Run(t0, es), user)
  {
    if es != [] {
      var n := |es| - 1;
      assert forall i | 0 <= i <= n :: es[..n][..i] == es[..i];
      NobodyIsMissed(t0, es[..n], user);
      StepKeepsNoneMissing(Run(t0, es[..n]), es[n], user);
    }
  }

  function AnnouncedUsers(hs: map<nat, Handler>): set<Text> {
    set c | c in hs && Announced(hs[c].phase) :: hs[c].user
  }

  /** The online store with the queued events applied lists exactly the announced users; so
      ListOnline does whenever the queue is empty. */
  lemma PresenceConverges(t0: Table, es: seq<Step>)
    requires forall u :: AlwaysPublishes(t0, es, u) && AlwaysOneSession(t0, es, u)
    ensures var g := Run(t0, es);
            && Applied(g.online, g.queue) == AnnouncedUsers(g.handlers)
            && (g.queue == [] ==> g.online == AnnouncedUsers(g.handlers))
  {
    var g := Run(t0, es);
    forall u ensures u in Applied(g.online, g.queue) <==> u in AnnouncedUsers(g.handlers) {
      NobodyIsInvented(t0, es, u);
      NobodyIsMissed(t0, es, u);
      assert u in AnnouncedUsers(g.handlers) <==> exists c :: AnnouncedBy(g.handlers, c, u) by {
        if c :| AnnouncedBy(g.handlers, c, u) {
          assert g.handlers[c].user in AnnouncedUsers(g.handlers);
        }
        if u in AnnouncedUsers(g.handlers) {
          var c :| c in g.handlers && Announced(g.handlers[c].phase) && g.handlers[c].user == u;
          assert AnnouncedBy(g.handlers, c, u);
        }
      }
    }
  }
}
