/** Every interleaving of Register, Login, IssueRefreshToken and Refresh calls. Refresh and
    IssueRefreshToken hold the service's lock; Register and Login read the users table first and
    act on what they read later, without it. */
module TokenChains {
  import opened Rooms
  import opened Auth

  /** A call that has read the users table and not yet finished. */
  datatype Task = Registering(username: Text) | LoggingIn(username: Text, uid: Text)

  /** What has happened so far: tokens minted by IssueRefreshToken, tokens a Refresh took out, in
      order, tokens a Refresh took out without minting a successor, the first token of each token's
      chain, the latest token of each chain, and the user each token was minted for. */
  datatype History = History(
    issued: set<Text>, spent: seq<Text>, burned: set<Text>,
    origin: map<Text, Text>, tip: map<Text, Text>, owner: map<Text, Text>)

  /** The service's two maps, the calls in flight, the token history, and every access token signed. */
  datatype State = State(users: Users, live: map<Text, Text>, tasks: map<nat, Task>, h: History, signed: set<Access>)

  datatype Event =
    | RegisterFind(task: nat, username: Text)
    | RegisterCreate(task: nat, fails: bool, freshId: Text)
    | LoginFind(task: nat, username: Text)
    | LoginFinish(task: nat, issue: IssueMoment)
    | Refreshes(token: Text, moment: RefreshMoment)

  /** A token from IssueRefreshToken starts a chain. */
  function Minted(h: History, user: Text, token: Text): History {
    h.(issued := h.issued + {token}, origin := h.origin[token := token],
       tip := h.tip[token := token], owner := h.owner[token := user])
  }

  function Burn(h: History, token: Text): History {
    h.(spent := h.spent + [token], burned := h.burned + {token})
  }

  /** The first token of a token's chain (a token without a chain, which no run has, is its own). */
  function RootOf(h: History, token: Text): Text {
    if token in h.origin then h.origin[token] else token
  }

  function UserOf(h: History, token: Text): Text {
    if token in h.owner then h.owner[token] else []
  }

  /** The successor joins the token's chain. */
  function Rotate(h: History, user: Text, token: Text, successor: Text): History {
    var root := RootOf(h, token);
    h.(spent := h.spent + [token], origin := h.origin[successor := root],
       tip := h.tip[root := successor], owner := h.owner[successor := user])
  }

  function Do(s: State, e: Event): State {
    match e
    case RegisterFind(task, username) =>
      if username in s.users || !ValidUsername(username) then s
      else s.(tasks := s.tasks[task := Registering(username)])
    case RegisterCreate(task, fails, freshId) =>
      if task !in s.tasks || !s.tasks[task].Registering? then s
      else
        var username := s.tasks[task].username;
        var done := s.(tasks := s.tasks - {task});
        if fails || username in s.users then done else done.(users := s.users[username := freshId])
    case LoginFind(task, username) =>
      if username == [] || username !in s.users then s
      else s.(tasks := s.tasks[task := LoggingIn(username, s.users[username])])
    case LoginFinish(task, m) =>
      if task !in s.tasks || !s.tasks[task].LoggingIn? then s
      else
        var t := s.tasks[task];
        var (live, r) := Issue(s.live, t.username, m);
        State(s.users, live, s.tasks - {task}, if r.Ok? then Minted(s.h, t.username, m.token) else s.h,
              s.signed + {Access(t.username, t.uid)})
    case Refreshes(token, m) =>
      var (live, r) := Redeem(s.users, s.live, token, m);
      if token == [] || token !in s.live then s
      else
        match r
        case Err(e) =>
          s.(live := live, h := Burn(s.h, token),
             signed := s.signed + (if e.RandFailed? then {Access(s.live[token], s.users[s.live[token]])} else {}))
        case Ok((access, successor)) =>
          s.(live := live, h := Rotate(s.h, s.live[token], token, successor), signed := s.signed + {access})
  }

  function Start(users: Users): State {
    State(users, map[], map[], History({}, [], {}, map[], map[], map[]), {})
  }

  function Run(users: Users, es: seq<Event>): State {
    if es == [] then Start(users) else Do(Run(users, es[..|es| - 1]), es[|es| - 1])
  }

  /** The premise on the random source: a token is never produced twice. */
  ghost predicate FreshIn(s: State, e: Event) {
    match e
    case LoginFinish(_, m) => m.token !in s.h.owner
    case Refreshes(_, m) => m.token !in s.h.owner
    case _ => true
  }

  ghost predicate AlwaysFresh(users: Users, es: seq<Event>) {
    forall i | 0 <= i < |es| :: FreshIn(Run(users, es[..i]), es[i])
  }

  // ------------------------------------------------------------------- invariants

  ghost predicate Distinct(s: seq<Text>) {
    forall i, j | 0 <= i < j < |s| :: s[i] != s[j]
  }

  /** Every token ever minted knows its user and its chain; a chain keeps its user. */
  ghost predicate Owned(live: map<Text, Text>, h: History) {
    && h.origin.Keys == h.owner.Keys
    && (forall t | t in h.issued :: t in h.origin && h.origin[t] == t)
    && (forall t | t in h.origin :: h.origin[t] in h.issued && h.owner[h.origin[t]] == h.owner[t])
    && (forall t | t in live :: t in h.owner && live[t] == h.owner[t])
  }

  /** No token is spent twice, and a spent token is not live. */
  ghost predicate SpentOnce(live: map<Text, Text>, h: History) {
    && Distinct(h.spent)
    && (forall i | 0 <= i < |h.spent| :: h.spent[i] in h.owner && h.spent[i] !in live)
    && (forall t | t in h.burned :: t in h.spent)
  }

  /** A chain has not ended in anything but its latest token: that one, and no other, is live or burned. */
  ghost predicate OneEndPerChain(live: map<Text, Text>, h: History) {
    h.tip.Keys == h.issued && live.Keys !! h.burned && EndsAreTips(live, h) && TipsAreEnds(live, h)
  }

  ghost predicate EndsAreTips(live: map<Text, Text>, h: History) {
    forall t | t in live || t in h.burned :: t in h.origin && h.origin[t] in h.tip && h.tip[h.origin[t]] == t
  }

  ghost predicate TipsAreEnds(live: map<Text, Text>, h: History) {
    forall r | r in h.tip ::
      (h.tip[r] in live || h.tip[r] in h.burned) && h.tip[r] in h.origin && h.origin[h.tip[r]] == r
  }

  ghost predicate Counted(live: map<Text, Text>, h: History) {
    |live| + |h.burned| == |h.issued|
  }

  ghost predicate Known(users: Users, a: Access) {
    a.sub in users && a.uid == users[a.sub]
  }

  ghost predicate UidsKnown(s: State) {
    && (forall a | a in s.signed :: Known(s.users, a))
    && (forall k | k in s.tasks && s.tasks[k].LoggingIn? :: Known(s.users, Access(s.tasks[k].username, s.tasks[k].uid)))
  }

  lemma UidsStayKnown(s: State, e: Event)
    requires UidsKnown(s)
    ensures UidsKnown(Do(s, e))
  {
  }

  /** The token history is in order. */
  ghost predicate Ordered(live: map<Text, Text>, h: History) {
    Owned(live, h) && SpentOnce(live, h) && OneEndPerChain(live, h) && Counted(live, h)
  }

  lemma MintKeepsTokens(h: History, live: map<Text, Text>, user: Text, token: Text)
    requires Owned(live, h) && SpentOnce(live, h) && token !in h.owner
    ensures Owned(live[token := user], Minted(h, user, token)) && SpentOnce(live[token := user], Minted(h, user, token))
  {
  }

  lemma MintKeepsTips(h: History, live: map<Text, Text>, user: Text, token: Text)
    requires Owned(live, h) && OneEndPerChain(live, h) && token !in h.owner
    ensures TipsAreEnds(live[token := user], Minted(h, user, token))
  {
  }

  lemma MintKeepsChains(h: History, live: map<Text, Text>, user: Text, token: Text)
    requires Owned(live, h) && SpentOnce(live, h) && OneEndPerChain(live, h) && token !in h.owner
    ensures OneEndPerChain(live[token := user], Minted(h, user, token))
  {
    MintKeepsTips(h, live, user, token);
    assert token !in h.issued && token !in h.tip && token !in h.burned;
  }

  lemma BurnKeepsTokens(h: History, live: map<Text, Text>, token: Text)
    requires Owned(live, h) && SpentOnce(live, h) && token in live
    ensures Owned(live - {token}, Burn(h, token)) && SpentOnce(live - {token}, Burn(h, token))
  {
    assert Burn(h, token).spent[|h.spent|] == token;
  }

  lemma BurnKeepsChains(h: History, live: map<Text, Text>, token: Text)
    requires OneEndPerChain(live, h) && token in live
    ensures OneEndPerChain(live - {token}, Burn(h, token))
  {
  }

  function Successor(live: map<Text, Text>, token: Text, successor: Text): map<Text, Text>
    requires token in live
  {
    (live - {token})[successor := live[token]]
  }

  lemma RotateKeepsOwners(h: History, live: map<Text, Text>, token: Text, successor: Text)
    requires Owned(live, h) && token in live && successor !in h.owner
    ensures Owned(Successor(live, token, successor), Rotate(h, live[token], token, successor))
  {
  }

  lemma RotateKeepsTokens(h: History, live: map<Text, Text>, token: Text, successor: Text)
    requires Owned(live, h) && SpentOnce(live, h) && token in live && successor !in h.owner
    ensures Owned(Successor(live, token, successor), Rotate(h, live[token], token, successor))
    ensures SpentOnce(Successor(live, token, successor), Rotate(h, live[token], token, successor))
  {
    RotateKeepsOwners(h, live, token, successor);
  }

  lemma RotateKeepsChains(h: History, live: map<Text, Text>, token: Text, successor: Text)
    requires Owned(live, h) && SpentOnce(live, h) && OneEndPerChain(live, h) && token in live && successor !in h.owner
    ensures OneEndPerChain(Successor(live, token, successor), Rotate(h, live[token], token, successor))
  {
  }

  lemma MintKeepsOrder(h: History, live: map<Text, Text>, user: Text, token: Text)
    requires Ordered(live, h) && token !in h.owner
    ensures Ordered(live[token := user], Minted(h, user, token))
  {
    MintKeepsTokens(h, live, user, token);
    MintKeepsChains(h, live, user, token);
    FreshIsNew(h, live, token);
    MintKeepsCount(h, live, user, token);
  }

  lemma FreshIsNew(h: History, live: map<Text, Text>, token: Text)
    requires Owned(live, h) && token !in h.owner
    ensures token !in live && token !in h.issued
  {
  }

  lemma MintKeepsCount(h: History, live: map<Text, Text>, user: Text, token: Text)
    requires Counted(live, h) && token !in live && token !in h.issued
    ensures Counted(live[token := user], Minted(h, user, token))
  {
    assert live[token := user].Keys == live.Keys + {token};
  }

  lemma BurnKeepsOrder(h: History, live: map<Text, Text>, token: Text)
    requires Ordered(live, h) && token in live
    ensures Ordered(live - {token}, Burn(h, token))
  {
    BurnKeepsTokens(h, live, token);
    BurnKeepsChains(h, live, token);
    assert Counted(live - {token}, Burn(h, token)) by {
      assert token !in h.burned;
      assert (live - {token}).Keys == live.Keys - {token};
    }
  }

  lemma RotateKeepsOrder(h: History, live: map<Text, Text>, token: Text, successor: Text)
    requires Ordered(live, h) && token in live && successor !in h.owner
    ensures Ordered(Successor(live, token, successor), Rotate(h, live[token], token, successor))
  {
    RotateKeepsTokens(h, live, token, successor);
    RotateKeepsChains(h, live, token, successor);
    assert Counted(Successor(live, token, successor), Rotate(h, live[token], token, successor)) by {
      assert successor !in live;
      assert Successor(live, token, successor).Keys == live.Keys - {token} + {successor};
    }
  }

  lemma StepKeepsOrder(s: State, e: Event)
    requires Ordered(s.live, s.h) && FreshIn(s, e)
    ensures Ordered(Do(s, e).live, Do(s, e).h)
  {
    match e
    case LoginFinish(task, m) => LoginKeepsOrder(s, task, m);
    case Refreshes(token, m) => RefreshKeepsOrder(s, token, m);
    case _ =>
      assert Do(s, e).live == s.live && Do(s, e).h == s.h;
  }

  lemma LoginKeepsOrder(s: State, task: nat, m: IssueMoment)
    requires Ordered(s.live, s.h) && m.token !in s.h.owner
    ensures Ordered(Do(s, LoginFinish(task, m)).live, Do(s, LoginFinish(task, m)).h)
  {
    LoginEffect(s, task, m);
    if LoginMints(s, task, m) {
      MintKeepsOrder(s.h, s.live, s.tasks[task].username, m.token);
    }
  }

  predicate LoginMints(s: State, task: nat, m: IssueMoment) {
    task in s.tasks && s.tasks[task].LoggingIn? && s.tasks[task].username != [] && !m.randFails
  }

  lemma LoginEffect(s: State, task: nat, m: IssueMoment)
    ensures var s' := Do(s, LoginFinish(task, m));
            if LoginMints(s, task, m) then
              var user := s.tasks[task].username;
              s'.live == s.live[m.token := user] && s'.h == Minted(s.h, user, m.token)
            else s'.live == s.live && s'.h == s.h
  {
  }

  lemma RefreshEffect(s: State, token: Text, m: RefreshMoment)
    ensures var s' := Do(s, Refreshes(token, m));
            if token == [] || token !in s.live then s' == s
            else if Redeem(s.users, s.live, token, m).1.Err? then
              s'.live == s.live - {token} && s'.h == Burn(s.h, token)
            else s'.live == Successor(s.live, token, m.token) && s'.h == Rotate(s.h, s.live[token], token, m.token)
  {
  }

  lemma RefreshKeepsOrder(s: State, token: Text, m: RefreshMoment)
    requires Ordered(s.live, s.h) && m.token !in s.h.owner
    ensures Ordered(Do(s, Refreshes(token, m)).live, Do(s, Refreshes(token, m)).h)
  {
    RefreshEffect(s, token, m);
    if token != [] && token in s.live {
      if Redeem(s.users, s.live, token, m).1.Err? {
        BurnKeepsOrder(s.h, s.live, token);
      } else {
        RotateKeepsOrder(s.h, s.live, token, m.token);
      }
    }
  }

  lemma {:induction false} EveryRunIsOrdered(users: Users, es: seq<Event>)
    requires AlwaysFresh(users, es)
    ensures Ordered(Run(users, es).live, Run(users, es).h)
  {
    if es != [] {
      var n := |es| - 1;
      assert AlwaysFresh(users, es[..n]) by {
        forall i | 0 <= i < n ensures FreshIn(Run(users, es[..n][..i]), es[..n][i]) {
          assert es[..n][..i] == es[..i];
        }
      }
      EveryRunIsOrdered(users, es[..n]);
      StepKeepsOrder(Run(users, es[..n]), es[n]);
    }
  }

  lemma {:induction false} EveryRunKnowsItsUids(users: Users, es: seq<Event>)
    ensures UidsKnown(Run(users, es))
  {
    if es != [] {
      EveryRunKnowsItsUids(users, es[..|es| - 1]);
      UidsStayKnown(Run(users, es[..|es| - 1]), es[|es| - 1]);
    }
  }

  // ----------------------------------------------------------------- what follows

  /** No token is redeemed twice, and one that was redeemed is refused from then on. */
  lemma TokensAreSpentOnce(users: Users, es: seq<Event>, token: Text, m: RefreshMoment)
    requires AlwaysFresh(users, es)
    ensures var s := Run(users, es);
            && Distinct(s.h.spent)
            && (token in s.h.spent ==> Redeem(s.users, s.live, token, m).1.Err?
                                       && Redeem(s.users, s.live, token, m).0 == s.live)
  {
    EveryRunIsOrdered(users, es);
  }

  /** The chain that began with r ends in this token, live or burned. */
  predicate EndOf(s: State, r: Text, e: Text) {
    (e in s.live || e in s.h.burned) && RootOf(s.h, e) == r
  }

  /** Live tokens are those issued at login less those burned by a refresh that failed too late;
      each login's chain ends in exactly one of them. */
  lemma LiveIsIssuedMinusBurned(users: Users, es: seq<Event>, t: Text, t': Text)
    requires AlwaysFresh(users, es)
    ensures var s := Run(users, es);
            && |s.live| == |s.h.issued| - |s.h.burned|
            && (t in s.live || t in s.h.burned ==> RootOf(s.h, t) in s.h.issued)
            && (t in s.live && (t' in s.live || t' in s.h.burned) && t != t' ==> RootOf(s.h, t) != RootOf(s.h, t'))
            && (forall r | r in s.h.issued :: exists e :: EndOf(s, r, e))
  {
    EveryRunIsOrdered(users, es);
    var s := Run(users, es);
    forall r | r in s.h.issued ensures exists e :: EndOf(s, r, e) {
      assert EndOf(s, r, s.h.tip[r]);
    }
  }

  /** However often it was rotated, a token redeems to the user its chain was issued for. */
  lemma ChainsKeepTheirUser(users: Users, es: seq<Event>, token: Text, m: RefreshMoment)
    requires AlwaysFresh(users, es) && Redeem(Run(users, es).users, Run(users, es).live, token, m).1.Ok?
    ensures var s := Run(users, es);
            && RootOf(s.h, token) in s.h.issued
            && Redeem(s.users, s.live, token, m).1.value.0.sub == UserOf(s.h, RootOf(s.h, token))
  {
    EveryRunIsOrdered(users, es);
  }

  /** Racing registrations never give one username two ids. */
  lemma SameSubSameUid(users: Users, es: seq<Event>, a: Access, b: Access)
    requires a in Run(users, es).signed && b in Run(users, es).signed && a.sub == b.sub
    ensures a.uid == b.uid
  {
    EveryRunKnowsItsUids(users, es);
  }
}
