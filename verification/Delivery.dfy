/** Which frames each connection is sent by a run of router calls, and what its reader decodes. */
module Delivery {
  import opened Framing
  import opened Rooms

  /** The broadcast format "[room] from: body". */
  function Line(room: Text, from: Text, body: Text): (line: Text)
    ensures |line| == |room| + |from| + |body| + 5
  {
    [0x5B] + room + [0x5D, 0x20] + from + [0x3A, 0x20] + body
  }

  /** The bytes of an ASCII literal. */
  function Ascii(s: string): Text {
    seq(|s|, i requires 0 <= i < |s| => (s[i] as int % 0x100) as byte)
  }

  /** strings.Join(names, ", "). */
  function Joined(names: seq<Text>): Text {
    if names == [] then [] else if |names| == 1 then names[0]
    else Joined(names[..|names| - 1]) + [0x2C, 0x20] + names[|names| - 1]
  }

  /** "room - members: a, b". */
  function Roster(room: Text, members: seq<Text>): Text {
    room + Ascii(" - members: ") + Joined(members)
  }

  /** How many usernames of a room are mapped to this connection. */
  ghost function Copies<C>(members: map<Text, C>, c: C): nat {
    |set u | u in members && members[u] == c|
  }

  /** One more username of the room is served. */
  lemma CopiesVisit<C>(members: map<Text, C>, pending: set<Text>, user: Text, c: C)
    requires user in pending && user in members
    ensures Copies(members - (pending - {user}), c)
            == Copies(members - pending, c) + (if members[user] == c then 1 else 0)
  {
    var old', new' := members - pending, members - (pending - {user});
    var before, after := set u | u in old' && old'[u] == c, set u | u in new' && new'[u] == c;
    assert after == before + (if members[user] == c then {user} else {});
  }

  function Repeat<T>(x: seq<T>, n: nat): seq<T> {
    if n == 0 then [] else Repeat(x, n - 1) + x
  }

  // ------------------------------------------------------------------ runs of calls

  /** One call on the router, made while it holds its lock. Prints carries the lines in the
      order the two nested map iterations happened to take. */
  datatype Call<C> =
    | Joins(name: Text, user: Text, conn: C, moment: Moment)
    | Leaves(name: Text, user: Text)
    | Broadcasts(name: Text, from: Text, body: Text)
    | Sends(user: Text, data: Text)
    | Disconnects(user: Text)
    | Prints(to: C, lines: seq<Text>)

  function Apply<C>(s: Router<C>, t: Table, e: Call<C>): (Router<C>, Table) {
    match e
    case Joins(name, user, conn, m) => var (s', t', _) := Join(s, t, name, user, conn, m); (s', t')
    case Leaves(name, user) => var s' := Leave(s, name, user); (if s'.Some? then s'.value else s, t)
    case Disconnects(user) => (Disconnect(s, user), t)
    case _ => (s, t)
  }

  function After<C>(t0: Table, es: seq<Call<C>>): (Router<C>, Table) {
    if es == [] then (Router(map[], map[]), t0) else
      var (s, t) := After(t0, es[..|es| - 1]);
      Apply(s, t, es[|es| - 1])
  }

  /** The router stays sound along every run of calls. */
  lemma {:induction false} EveryRunIsSound<C>(t0: Table, es: seq<Call<C>>)
    ensures Sound(After(t0, es).0)
  {
    if es != [] {
      var (s, t) := After(t0, es[..|es| - 1]);
      EveryRunIsSound(t0, es[..|es| - 1]);
      match es[|es| - 1]
      case Joins(name, user, conn, m) => JoinKeepsSound(s, t, name, user, conn, m);
      case Leaves(name, user) =>
        if name in s.rooms {
          LeaveKeepsSound(s, name, user);
        }
      case Disconnects(user) => DisconnectKeepsSound(s, user);
      case _ =>
    }
  }

  /** The bytes one call writes to c, as the router's methods guarantee them for a working connection. */
  ghost function Written<C>(s: Router<C>, e: Call<C>, c: C): seq<byte> {
    match e
    case Broadcasts(name, from, body) =>
      if name !in s.rooms then []
      else Repeat(Encode(Line(s.rooms[name].room.name, from, body)), Copies(s.rooms[name].members, c))
    case Sends(user, data) => if user in s.users && s.users[user] == c then Encode(data) else []
    case Prints(to, lines) => if to == c then EncodeAll(lines) else []
    case _ => []
  }

  ghost function Wire<C>(t0: Table, es: seq<Call<C>>, c: C): seq<byte> {
    if es == [] then [] else
      var n := |es| - 1;
      Wire(t0, es[..n], c) + Written(After(t0, es[..n]).0, es[n], c)
  }

  /** A message together with the position in the run of the call that sent it. */
  datatype Sent = Sent(at: nat, text: Text)

  /** What one call addresses to c: a broadcast is addressed once per username of the room mapped to c. */
  ghost function Addressed<C>(s: Router<C>, e: Call<C>, c: C): seq<Text> {
    match e
    case Broadcasts(name, from, body) =>
      if name !in s.rooms then []
      else seq(Copies(s.rooms[name].members, c), _ => Line(s.rooms[name].room.name, from, body))
    case Sends(user, data) => if user in s.users && s.users[user] == c then [data] else []
    case Prints(to, lines) => if to == c then lines else []
    case _ => []
  }

  function Stamp(at: nat, texts: seq<Text>): (r: seq<Sent>)
    ensures |r| == |texts| && forall i | 0 <= i < |texts| :: r[i] == Sent(at, texts[i])
  {
    seq(|texts|, i requires 0 <= i < |texts| => Sent(at, texts[i]))
  }

  function Texts(log: seq<Sent>): (r: seq<Text>)
    ensures |r| == |log| && forall i | 0 <= i < |log| :: r[i] == log[i].text
  {
    seq(|log|, i requires 0 <= i < |log| => log[i].text)
  }

  /** Everything addressed to c over a run, in the order the lock was taken. */
  ghost function Log<C>(t0: Table, es: seq<Call<C>>, c: C): seq<Sent> {
    if es == [] then [] else
      var n := |es| - 1;
      Log(t0, es[..n], c) + Stamp(n, Addressed(After(t0, es[..n]).0, es[n], c))
  }

  lemma {:induction false} EncodeRepeated(line: Text, n: nat)
    ensures EncodeAll(seq(n, _ => line)) == Repeat(Encode(line), n)
  {
    if n > 0 {
      EncodeRepeated(line, n - 1);
      assert seq(n, _ => line) == seq(n - 1, _ => line) + [line];
      EncodeAllConcat(seq(n - 1, _ => line), [line]);
      assert EncodeAll([line]) == Encode(line);
    }
  }

  lemma WrittenIsAddressed<C>(s: Router<C>, e: Call<C>, c: C)
    ensures Written(s, e, c) == EncodeAll(Addressed(s, e, c))
  {
    match e
    case Broadcasts(name, from, body) =>
      if name in s.rooms {
        EncodeRepeated(Line(s.rooms[name].room.name, from, body), Copies(s.rooms[name].members, c));
      }
    case Sends(user, data) =>
      assert EncodeAll([data]) == Encode(data);
    case _ =>
  }

  lemma TextsAppend(log: seq<Sent>, n: nat, texts: seq<Text>)
    ensures Texts(log + Stamp(n, texts)) == Texts(log) + texts
  {
  }

  lemma {:induction false} WireIsLog<C>(t0: Table, es: seq<Call<C>>, c: C)
    ensures Wire(t0, es, c) == EncodeAll(Texts(Log(t0, es, c)))
  {
    if es != [] {
      var n := |es| - 1;
      var s := After(t0, es[..n]).0;
      WireIsLog(t0, es[..n], c);
      WrittenIsAddressed(s, es[n], c);
      TextsAppend(Log(t0, es[..n], c), n, Addressed(s, es[n], c));
      EncodeAllConcat(Texts(Log(t0, es[..n], c)), Addressed(s, es[n], c));
    }
  }

  /** The reader of c decodes exactly the messages addressed to c, in lock order, with nothing left over. */
  lemma DeliveredInLockOrder<C>(t0: Table, es: seq<Call<C>>, c: C)
    requires forall i | 0 <= i < |Log(t0, es, c)| :: |Log(t0, es, c)[i].text| <= MAX_MESSAGE_SIZE
    ensures DecodeAll(Wire(t0, es, c)) == (Texts(Log(t0, es, c)), [])
  {
    WireIsLog(t0, es, c);
    StreamRoundTrip(Texts(Log(t0, es, c)));
  }

  /** The cap is the exact condition: one message over it also costs the reader everything after it. */
  lemma DeliveredExactlyWithinTheCap<C>(t0: Table, es: seq<Call<C>>, c: C)
    ensures DecodeAll(Wire(t0, es, c)) == (Texts(Log(t0, es, c)), []) <==>
            forall i | 0 <= i < |Log(t0, es, c)| :: |Log(t0, es, c)[i].text| <= MAX_MESSAGE_SIZE
  {
    WireIsLog(t0, es, c);
    StreamRoundTripExactly(Texts(Log(t0, es, c)));
    assert forall i | 0 <= i < |Log(t0, es, c)| :: Texts(Log(t0, es, c))[i] == Log(t0, es, c)[i].text;
  }

  ghost predicate InLockOrder(log: seq<Sent>, n: nat) {
    && (forall i, j | 0 <= i < j < |log| :: log[i].at <= log[j].at)
    && (forall i | 0 <= i < |log| :: log[i].at < n)
  }

  lemma {:induction false} LogFollowsTheLock<C>(t0: Table, es: seq<Call<C>>, c: C)
    ensures InLockOrder(Log(t0, es, c), |es|)
  {
    if es != [] {
      var n := |es| - 1;
      LogFollowsTheLock(t0, es[..n], c);
      LockOrderGrows(Log(t0, es[..n], c), n, Addressed(After(t0, es[..n]).0, es[n], c));
    }
  }

  lemma LockOrderGrows(log: seq<Sent>, n: nat, texts: seq<Text>)
    requires InLockOrder(log, n)
    ensures InLockOrder(log + Stamp(n, texts), n + 1)
  {
  }

  /** Two connections that one call wrote to were written the same text: it was a broadcast. */
  lemma {:induction false} OneCallOneText<C>(t0: Table, es: seq<Call<C>>, c: C, d: C, i: nat, j: nat)
    requires c != d && i < |Log(t0, es, c)| && j < |Log(t0, es, d)|
    requires Log(t0, es, c)[i].at == Log(t0, es, d)[j].at
    ensures Log(t0, es, c)[i].text == Log(t0, es, d)[j].text
  {
    var n := |es| - 1;
    var s := After(t0, es[..n]).0;
    LogFollowsTheLock(t0, es[..n], c);
    LogFollowsTheLock(t0, es[..n], d);
    if i < |Log(t0, es[..n], c)| {
      OneCallOneText(t0, es[..n], c, d, i, j);
    } else {
      AddressedAlike(s, es[n], c, d, i - |Log(t0, es[..n], c)|, j - |Log(t0, es[..n], d)|);
    }
  }

  lemma AddressedAlike<C>(s: Router<C>, e: Call<C>, c: C, d: C, i: nat, j: nat)
    requires c != d && i < |Addressed(s, e, c)| && j < |Addressed(s, e, d)|
    ensures Addressed(s, e, c)[i] == Addressed(s, e, d)[j]
  {
  }

  /** No two connections see two calls' messages in opposite orders. */
  lemma SameOrderEverywhere<C>(t0: Table, es: seq<Call<C>>, c: C, d: C, i: nat, j: nat, i': nat, j': nat)
    requires i < j < |Log(t0, es, c)| && i' < |Log(t0, es, d)| && j' < |Log(t0, es, d)|
    requires Log(t0, es, c)[i].at == Log(t0, es, d)[i'].at != Log(t0, es, c)[j].at == Log(t0, es, d)[j'].at
    ensures i' < j'
  {
    LogFollowsTheLock(t0, es, c);
    LogFollowsTheLock(t0, es, d);
  }

  /** A broadcast reaches its readers exactly when room name, sender and body leave room for the format. */
  lemma BroadcastReadableExactly(room: Text, from: Text, body: Text, rest: seq<byte>)
    ensures Decode(Encode(Line(room, from, body)) + rest) == (Frame(Line(room, from, body)), rest)
            <==> |room| + |from| + |body| + 5 <= MAX_MESSAGE_SIZE
  {
    RoundTripExactly(Line(room, from, body), rest);
  }

  /** So a body the server accepted at the cap is relayed in frames no member can read. */
  lemma FullSizeBodyIsUnreadable(room: Text, from: Text, body: Text, rest: seq<byte>)
    requires |body| == MAX_MESSAGE_SIZE && |room| + |from| < 0x1000
    ensures Decode(Encode(body) + rest) == (Frame(body), rest)
    ensures Decode(Encode(Line(room, from, body)) + rest).0 == Failed(TooLarge(|Line(room, from, body)|))
  {
    RoundTripExactly(body, rest);
    OversizeIsRefused(Line(room, from, body), rest);
  }
}
