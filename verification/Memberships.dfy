/** Who is in which room, on which connection, after any run of calls on the router, and whom its
    messages are addressed to: read off the calls alone. */
module Memberships {
  import opened Histories
  import opened Rooms
  import opened Delivery

  /** The call connects the user: a join that finds the room, or whose queries find or create it. */
  predicate Connects<C>(s: Router<C>, t: Table, e: Call<C>, user: Text) {
    && e.Joins? && e.user == user
    && (e.name in s.rooms || (!e.moment.findFails && (e.name in t || !e.moment.createFails)))
  }

  predicate Enters<C>(s: Router<C>, t: Table, e: Call<C>, room: Text, user: Text) {
    Connects(s, t, e, user) && e.name == room
  }

  /** The call takes the user out of the room, or puts the user's entry there anew. */
  predicate Replaces<C(==)>(s: Router<C>, t: Table, e: Call<C>, room: Text, user: Text) {
    e == Leaves(room, user) || e == Disconnects(user) || Enters(s, t, e, room, user)
  }

  /** The call disconnects the user, or connects the user anew. */
  predicate Supersedes<C(==)>(s: Router<C>, t: Table, e: Call<C>, user: Text) {
    e == Disconnects(user) || Connects(s, t, e, user)
  }

  ghost function EnteredAt<C>(t0: Table, es: seq<Call<C>>, room: Text, user: Text, c: C): nat -> bool {
    (i: nat) =>
      i < |es| && Enters(After(t0, es[..i]).0, After(t0, es[..i]).1, es[i], room, user) && es[i].conn == c
  }

  ghost function ReplacedAt<C>(t0: Table, es: seq<Call<C>>, room: Text, user: Text): nat -> bool {
    (i: nat) => i < |es| && Replaces(After(t0, es[..i]).0, After(t0, es[..i]).1, es[i], room, user)
  }

  ghost function ConnectedAt<C>(t0: Table, es: seq<Call<C>>, user: Text, c: C): nat -> bool {
    (i: nat) => i < |es| && Connects(After(t0, es[..i]).0, After(t0, es[..i]).1, es[i], user) && es[i].conn == c
  }

  ghost function SupersededAt<C>(t0: Table, es: seq<Call<C>>, user: Text): nat -> bool {
    (i: nat) => i < |es| && Supersedes(After(t0, es[..i]).0, After(t0, es[..i]).1, es[i], user)
  }

  /** A direct message to the user goes to this connection. */
  ghost predicate Reaches<C>(s: Router<C>, user: Text, c: C) {
    user in s.users && s.users[user] == c
  }

  lemma HoldsAfter<C>(s: Router<C>, t: Table, e: Call<C>, room: Text, user: Text, c: C)
    ensures Holds(Apply(s, t, e).0, room, user, c) <==>
            (Enters(s, t, e, room, user) && e.conn == c)
            || (Holds(s, room, user, c) && !Replaces(s, t, e, room, user))
  {
    match e
    case Joins(name, u, conn, m) => JoinHolds(s, t, name, u, conn, m, room, user, c);
    case Leaves(name, u) => LeaveHolds(s, name, u, room, user, c);
    case Disconnects(u) => DisconnectHolds(s, u, room, user, c);
    case _ =>
  }

  lemma ReachesAfter<C>(s: Router<C>, t: Table, e: Call<C>, user: Text, c: C)
    ensures Reaches(Apply(s, t, e).0, user, c) <==>
            (Connects(s, t, e, user) && e.conn == c) || (Reaches(s, user, c) && !Supersedes(s, t, e, user))
  {
  }

  /** After any run of calls the user is in the room with this connection exactly when some join put
      them there and no later call of theirs has ended or renewed that. */
  lemma {:induction false} MembershipExactly<C>(t0: Table, es: seq<Call<C>>, room: Text, user: Text, c: C)
    ensures Holds(After(t0, es).0, room, user, c) <==>
            Lasting(EnteredAt(t0, es, room, user, c), ReplacedAt(t0, es, room, user), |es|)
  {
    if es != [] {
      var n := |es| - 1;
      MembershipExactly(t0, es[..n], room, user, c);
      HoldsAfter(After(t0, es[..n]).0, After(t0, es[..n]).1, es[n], room, user, c);
      assert forall i: nat | i < n :: es[..n][..i] == es[..i];
      LastingSnoc(EnteredAt(t0, es, room, user, c), ReplacedAt(t0, es, room, user),
                  EnteredAt(t0, es[..n], room, user, c), ReplacedAt(t0, es[..n], room, user), n);
    }
  }

  /** And a direct message goes to the connection of the user's last join, of whatever room, unless a
      disconnect has followed it. */
  lemma {:induction false} ConnectionExactly<C>(t0: Table, es: seq<Call<C>>, user: Text, c: C)
    ensures Reaches(After(t0, es).0, user, c) <==>
            Lasting(ConnectedAt(t0, es, user, c), SupersededAt(t0, es, user), |es|)
  {
    if es != [] {
      var n := |es| - 1;
      ConnectionExactly(t0, es[..n], user, c);
      ReachesAfter(After(t0, es[..n]).0, After(t0, es[..n]).1, es[n], user, c);
      assert forall i: nat | i < n :: es[..n][..i] == es[..i];
      LastingSnoc(ConnectedAt(t0, es, user, c), SupersededAt(t0, es, user),
                  ConnectedAt(t0, es[..n], user, c), SupersededAt(t0, es[..n], user), n);
    }
  }

  // -------------------------------------------------------------- whom messages are addressed to

  /** The usernames that the calls have put in the room on this connection. */
  ghost function MembersOn<C>(t0: Table, es: seq<Call<C>>, room: Text, c: C): set<Text> {
    set i: nat | i < |es| && es[i].Joins? &&
                 Lasting(EnteredAt(t0, es, room, es[i].user, c), ReplacedAt(t0, es, room, es[i].user), |es|)
              :: es[i].user
  }

  /** A broadcast is addressed to a connection once per username that the calls have put in the room on
      it, under the room's name; a direct message to the connection of the user's last join. */
  lemma AddressedFromTheCalls<C>(t0: Table, es: seq<Call<C>>, e: Call<C>, c: C)
    ensures e.Broadcasts? ==>
              Addressed(After(t0, es).0, e, c)
              == seq(|MembersOn(t0, es, e.name, c)|, _ => Line(e.name, e.from, e.body))
    ensures e.Sends? ==>
              Addressed(After(t0, es).0, e, c)
              == if Lasting(ConnectedAt(t0, es, e.user, c), SupersededAt(t0, es, e.user), |es|) then [e.data] else []
  {
    match e
    case Broadcasts(name, from, body) => BroadcastFromTheCalls(t0, es, name, from, body, c);
    case Sends(user, data) => ConnectionExactly(t0, es, user, c);
    case _ =>
  }

  lemma MembersAreHeld<C>(t0: Table, es: seq<Call<C>>, room: Text, c: C, u: Text)
    ensures u in MembersOn(t0, es, room, c) <==> Holds(After(t0, es).0, room, u, c)
  {
    MembershipExactly(t0, es, room, u, c);
    if Holds(After(t0, es).0, room, u, c) {
      var entered, replaced := EnteredAt(t0, es, room, u, c), ReplacedAt(t0, es, room, u);
      var i: nat :| i < |es| && Stays(entered, replaced, i, |es|);
      assert es[i].Joins? && es[i].user == u;
    }
  }

  lemma BroadcastFromTheCalls<C>(t0: Table, es: seq<Call<C>>, name: Text, from: Text, body: Text, c: C)
    ensures Addressed(After(t0, es).0, Broadcasts(name, from, body), c)
            == seq(|MembersOn(t0, es, name, c)|, _ => Line(name, from, body))
  {
    var s := After(t0, es).0;
    EveryRunIsSound(t0, es);
    forall u ensures u in MembersOn(t0, es, name, c) <==> Holds(s, name, u, c) {
      MembersAreHeld(t0, es, name, c, u);
    }
    if name in s.rooms {
      var members := s.rooms[name].members;
      assert MembersOn(t0, es, name, c) == set u | u in members && members[u] == c;
    } else {
      assert MembersOn(t0, es, name, c) == {};
    }
  }
}
