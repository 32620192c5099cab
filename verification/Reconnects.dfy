/** The client's silent re-authentication after a lost connection: the same server, answered from the
    stored credentials, and what becomes of the stored token at the auth service. */
module Reconnects {
  import opened Wrappers
  import opened Framing
  import opened Rooms
  import opened Prompts
  import opened Handshake
  import opened Auth

  datatype Retry = Trying | Restored(credentials: Credentials) | GaveUp

  /** One redemption of a refresh token, as the server made it and was answered. */
  datatype Redemption = Redemption(token: Text, reply: Option<Account>)

  /** The dialogue with a client that answers by itself; calls is the history of redemptions. */
  datatype Attempt = Attempt(server: Server, client: Retry, down: seq<Text>, up: seq<Text>, calls: seq<Redemption>)

  datatype Turn = ServerTurn(verdict: Verdict) | ClientTurn

  /** The answer runSilentAuth gives to a prompt. */
  function Answer(stored: Credentials, prompt: Text): Text {
    if Includes(prompt, REFRESH) then stored.refreshToken else REFRESH_COMMAND
  }

  function Take(a: Attempt, stored: Credentials, turn: Turn): Attempt {
    match turn
    case ServerTurn(v) =>
      if a.server.Admitted? || a.up == [] then a
      else
        var (server, sent) := Serve(a.server, a.up[0], v);
        Attempt(server, a.client, a.down + sent, a.up[1..],
                if a.server.AwaitToken? then a.calls + [Redemption(a.up[0], v.reply)] else a.calls)
    case ClientTurn =>
      if !a.client.Trying? || a.down == [] then a
      else React(a.(down := a.down[1..]), stored, Silent(a.down[0]))
  }

  /** What the silent client makes of a frame it has taken off the queue. */
  function React(a: Attempt, stored: Credentials, reading: Reading): Attempt {
    match reading
    case Ignored => a
    case Final(token) => a.(client := Restored(Credentials(stored.username, token)))
    case Refused => a.(client := GaveUp)
    case Asked(prompt) => a.(up := a.up + [Answer(stored, prompt)])
  }

  function Run(stored: Credentials, turns: seq<Turn>): Attempt {
    if turns == [] then Attempt(AwaitCommand, Trying, [WELCOME], [], [])
    else Take(Run(stored, turns[..|turns| - 1]), stored, turns[|turns| - 1])
  }

  /** The whole course of a silent attempt, as an automaton. */
  datatype Stage =
    | Greeted | Requested | Prompted | Presented
    | Granted(account: Account) | Confirmed(account: Account)
    | Succeeded(account: Account) | Swallowed(account: Account)
    | Denied | Abandoned

  /** The client looks for "successful" before it looks for the last frame's prefix. */
  predicate Readable(token: Text) {
    !Includes(FINAL + Lower(token), SUCCESSFUL)
  }

  function After(stage: Stage, turn: Turn): Stage {
    match (stage, turn)
    case (Greeted, ClientTurn) => Requested
    case (Requested, ServerTurn(_)) => Prompted
    case (Prompted, ClientTurn) => Presented
    case (Presented, ServerTurn(v)) => if v.reply.None? then Denied else Granted(v.reply.value)
    case (Granted(account), ClientTurn) => Confirmed(account)
    case (Confirmed(account), ClientTurn) => if Readable(account.token) then Succeeded(account) else Swallowed(account)
    case (Denied, ClientTurn) => Abandoned
    case _ => stage
  }

  function Course(turns: seq<Turn>): Stage {
    if turns == [] then Greeted else After(Course(turns[..|turns| - 1]), turns[|turns| - 1])
  }

  /** The state of the dialogue at a stage. */
  function Shape(stage: Stage, stored: Credentials): Attempt {
    match stage
    case Greeted => Attempt(AwaitCommand, Trying, [WELCOME], [], [])
    case Requested => Attempt(AwaitCommand, Trying, [], [REFRESH_COMMAND], [])
    case Prompted => Attempt(AwaitToken, Trying, [ASK_TOKEN], [], [])
    case Presented => Attempt(AwaitToken, Trying, [], [stored.refreshToken], [])
    case Granted(account) =>
      Attempt(Admitted(account, None), Trying, [LOGIN_OK, FINAL + account.token], [],
              [Redemption(stored.refreshToken, Some(account))])
    case Confirmed(account) =>
      Attempt(Admitted(account, None), Trying, [FINAL + account.token], [],
              [Redemption(stored.refreshToken, Some(account))])
    case Succeeded(account) =>
      Attempt(Admitted(account, None), Restored(Credentials(stored.username, Lower(account.token))), [], [],
              [Redemption(stored.refreshToken, Some(account))])
    case Swallowed(account) =>
      Attempt(Admitted(account, None), Trying, [], [], [Redemption(stored.refreshToken, Some(account))])
    case Denied => Attempt(AwaitCommand, Trying, [UNAVAILABLE, ENTER], [], [Redemption(stored.refreshToken, None)])
    case Abandoned => Attempt(AwaitCommand, GaveUp, [ENTER], [], [Redemption(stored.refreshToken, None)])
  }

  lemma CommandIsTrimmed()
    ensures TrimSpace(REFRESH_COMMAND) == REFRESH_COMMAND
    ensures REFRESH_COMMAND != REGISTER_COMMAND && REFRESH_COMMAND != LOGIN_COMMAND
  {
    NothingToTrim(REFRESH_COMMAND);
    assert |REFRESH_COMMAND| == 8 && |REGISTER_COMMAND| == 9 && |LOGIN_COMMAND| == 6;
  }

  lemma ServesRefresh(v: Verdict)
    ensures Serve(AwaitCommand, REFRESH_COMMAND, v) == (AwaitToken, [ASK_TOKEN])
  {
    CommandIsTrimmed();
  }

  /** A server turn with one answer waiting and nothing on its way back. */
  lemma ServerTurnIs(a: Attempt, stored: Credentials, v: Verdict, line: Text, server: Server, sent: seq<Text>)
    requires !a.server.Admitted? && a.up == [line] && a.down == [] && a.calls == []
    requires Serve(a.server, line, v) == (server, sent)
    ensures Take(a, stored, ServerTurn(v)) ==
            Attempt(server, a.client, sent, [], if a.server.AwaitToken? then [Redemption(line, v.reply)] else [])
  {
    assert [] + sent == sent;
  }

  lemma RequestAdvances(stored: Credentials, v: Verdict)
    ensures Take(Shape(Requested, stored), stored, ServerTurn(v)) == Shape(Prompted, stored)
  {
    ServesRefresh(v);
    ServerTurnIs(Shape(Requested, stored), stored, v, REFRESH_COMMAND, AwaitToken, [ASK_TOKEN]);
  }

  lemma PresentationAdvances(stored: Credentials, v: Verdict)
    ensures Take(Shape(Presented, stored), stored, ServerTurn(v))
            == Shape(if v.reply.None? then Denied else Granted(v.reply.value), stored)
  {
    var (server, sent) := Serve(AwaitToken, stored.refreshToken, v);
    ServerTurnIs(Shape(Presented, stored), stored, v, stored.refreshToken, server, sent);
  }

  lemma ServerIdles(a: Attempt, stored: Credentials, v: Verdict)
    requires a.server.Admitted? || a.up == []
    ensures Take(a, stored, ServerTurn(v)) == a
  {
  }

  lemma ServerTurnAdvances(stage: Stage, stored: Credentials, v: Verdict)
    ensures Take(Shape(stage, stored), stored, ServerTurn(v)) == Shape(After(stage, ServerTurn(v)), stored)
  {
    match stage
    case Requested => RequestAdvances(stored, v);
    case Presented => PresentationAdvances(stored, v);
    case _ => ServerIdles(Shape(stage, stored), stored, v);
  }

  /** A client turn, from what the client makes of the frame. */
  lemma ClientTurnIs(a: Attempt, stored: Credentials, frame: Text, more: seq<Text>, reading: Reading)
    requires a.client.Trying? && a.down == [frame] + more && Silent(frame) == reading
    ensures Take(a, stored, ClientTurn) == React(a.(down := more), stored, reading)
  {
    assert a.down[1..] == more;
  }

  lemma PromptAdvances(a: Attempt, stored: Credentials, prompt: Text, line: Text)
    requires a.client.Trying? && a.down == [prompt] && a.up == []
    requires Silent(prompt) == Asked(prompt) && Answer(stored, prompt) == line
    ensures Take(a, stored, ClientTurn) == a.(down := [], up := [line])
  {
    assert [prompt] + [] == [prompt] && [] + [line] == [line];
    ClientTurnIs(a, stored, prompt, [], Asked(prompt));
  }

  lemma GreetingIsAnswered(stored: Credentials)
    ensures Silent(WELCOME) == Asked(WELCOME) && Answer(stored, WELCOME) == REFRESH_COMMAND
  {
    ReadsWelcome();
  }

  lemma GreetingAdvances(stored: Credentials)
    ensures Take(Shape(Greeted, stored), stored, ClientTurn) == Shape(Requested, stored)
  {
    GreetingIsAnswered(stored);
    PromptAdvances(Shape(Greeted, stored), stored, WELCOME, REFRESH_COMMAND);
  }

  lemma TokenPromptIsAnswered(stored: Credentials)
    ensures Silent(ASK_TOKEN) == Asked(ASK_TOKEN) && Answer(stored, ASK_TOKEN) == stored.refreshToken
  {
    ReadsAskToken();
  }

  lemma TokenPromptAdvances(stored: Credentials)
    ensures Take(Shape(Prompted, stored), stored, ClientTurn) == Shape(Presented, stored)
  {
    TokenPromptIsAnswered(stored);
    PromptAdvances(Shape(Prompted, stored), stored, ASK_TOKEN, stored.refreshToken);
  }

  lemma NoticeAdvances(stored: Credentials, account: Account)
    ensures Take(Shape(Granted(account), stored), stored, ClientTurn) == Shape(Confirmed(account), stored)
  {
    ReadsLoginOk();
    ClientTurnIs(Shape(Granted(account), stored), stored, LOGIN_OK, [FINAL + account.token], Ignored);
  }

  lemma FinalAdvances(stored: Credentials, account: Account)
    ensures Take(Shape(Confirmed(account), stored), stored, ClientTurn)
            == Shape(if Readable(account.token) then Succeeded(account) else Swallowed(account), stored)
  {
    var reading := Silent(FINAL + account.token);
    assert reading == if Readable(account.token) then Final(Lower(account.token)) else Ignored by {
      ReadsFinalExactly(account.token);
    }
    ClientTurnIs(Shape(Confirmed(account), stored), stored, FINAL + account.token, [], reading);
  }

  lemma RefusalAdvances(stored: Credentials)
    ensures Take(Shape(Denied, stored), stored, ClientTurn) == Shape(Abandoned, stored)
  {
    ReadsUnavailable();
    ClientTurnIs(Shape(Denied, stored), stored, UNAVAILABLE, [ENTER], Refused);
  }

  lemma ClientIdles(a: Attempt, stored: Credentials)
    requires !a.client.Trying? || a.down == []
    ensures Take(a, stored, ClientTurn) == a
  {
  }

  lemma ClientTurnAdvances(stage: Stage, stored: Credentials)
    ensures Take(Shape(stage, stored), stored, ClientTurn) == Shape(After(stage, ClientTurn), stored)
  {
    match stage
    case Greeted => GreetingAdvances(stored);
    case Prompted => TokenPromptAdvances(stored);
    case Granted(account) => NoticeAdvances(stored, account);
    case Confirmed(account) => FinalAdvances(stored, account);
    case Denied => RefusalAdvances(stored);
    case _ => ClientIdles(Shape(stage, stored), stored);
  }

  lemma TurnAdvances(a: Attempt, stage: Stage, stored: Credentials, turn: Turn)
    requires a == Shape(stage, stored)
    ensures Take(a, stored, turn) == Shape(After(stage, turn), stored)
  {
    match turn
    case ServerTurn(v) => ServerTurnAdvances(stage, stored, v);
    case ClientTurn => ClientTurnAdvances(stage, stored);
  }

  lemma {:induction false} SwallowedIsUnreadable(turns: seq<Turn>)
    ensures Course(turns).Swallowed? ==> !Readable(Course(turns).account.token)
  {
    if turns != [] {
      SwallowedIsUnreadable(turns[..|turns| - 1]);
    }
  }

  /** Whatever the interleaving, a silent attempt goes through these stages and no other states. */
  lemma {:induction false} EveryAttemptIsOnCourse(stored: Credentials, turns: seq<Turn>)
    ensures Run(stored, turns) == Shape(Course(turns), stored)
  {
    if turns != [] {
      var front, turn := turns[..|turns| - 1], turns[|turns| - 1];
      EveryAttemptIsOnCourse(stored, front);
      TurnAdvances(Run(stored, front), Course(front), stored, turn);
    }
  }

  /** However turns interleave: the server asks for at most one redemption, of the stored token, though
      it may call the service several times for it; the client is restored only if that was granted
      and gives up only if it was not; and nothing is under way for a client still trying exactly if it
      has taken the last frame for a notice. */
  lemma OneRedemptionDecides(stored: Credentials, turns: seq<Turn>)
    ensures var a := Run(stored, turns);
            && |a.calls| <= 1
            && (a.calls != [] ==> a.calls[0].token == stored.refreshToken)
            && (a.client.Restored? ==>
                  && a.calls != [] && a.calls[0].reply.Some?
                  && a.client.credentials == Credentials(stored.username, Lower(a.calls[0].reply.value.token)))
            && (a.client.GaveUp? ==> a.calls != [] && a.calls[0].reply.None?)
            && (a.client.Trying? && a.down == [] ==>
                  (a.up == [] <==> a.server.Admitted? && !Readable(a.server.account.token)))
  {
    EveryAttemptIsOnCourse(stored, turns);
    SwallowedIsUnreadable(turns);
  }

  // --------------------------------------------------------- what the stored token is worth

  predicate HexKeys(live: map<Text, Text>) {
    forall t | t in live :: IsHex(t)
  }

  const DOT: byte := 46

  /** A token with a dot in it, as every signed access token has, is not found in lower case either. */
  lemma DottedIsNotLive(live: map<Text, Text>, token: Text)
    requires HexKeys(live) && DOT in token
    ensures Lower(token) !in live
  {
    var i :| 0 <= i < |token| && token[i] == DOT;
    assert Lower(token)[i] in Lower(token);
  }

  /** One try of callWithRetry: it never gets to the service, or the service answers it, or the service
      serves it and the answer is lost. */
  datatype Try = Unreached | Answered(moment: RefreshMoment) | ReplyLost(moment: RefreshMoment)

  /** callWithRetry around Refresh: the service's tokens afterwards, and the successor if a try returned one. */
  function Tries(users: Users, live: map<Text, Text>, token: Text, ts: seq<Try>): (map<Text, Text>, Option<Text>)
    decreases |ts|
  {
    if ts == [] then (live, None)
    else if ts[0].Unreached? then Tries(users, live, token, ts[1..])
    else
      var (live', r) := Redeem(users, live, token, ts[0].moment);
      if ts[0].Answered? && r.Ok? then (live', Some(r.value.1)) else Tries(users, live', token, ts[1..])
  }

  /** The guards of Refresh, as its caller could check them. */
  predicate Redeemable(users: Users, live: map<Text, Text>, token: Text, m: RefreshMoment) {
    token != [] && token in live && live[token] in users && !m.findFails && !m.signFails && !m.randFails
  }

  /** The first try that gets to the service, if one does. */
  function FirstReached(ts: seq<Try>): Try {
    if ts == [] then Unreached else if ts[0].Unreached? then FirstReached(ts[1..]) else ts[0]
  }

  /** The premise on the random source: no try draws the token it redeems. */
  predicate Fresh(ts: seq<Try>, token: Text) {
    forall i | 0 <= i < |ts| && !ts[i].Unreached? :: ts[i].moment.token != token
  }

  lemma {:induction false} RefusedStaysRefused(users: Users, live: map<Text, Text>, token: Text, ts: seq<Try>)
    requires token !in live
    ensures Tries(users, live, token, ts) == (live, None)
  {
    if ts != [] {
      RefusedStaysRefused(users, live, token, ts[1..]);
    }
  }

  lemma {:induction false} EmptyIsRefused(users: Users, live: map<Text, Text>, ts: seq<Try>)
    ensures Tries(users, live, [], ts) == (live, None)
  {
    if ts != [] {
      EmptyIsRefused(users, live, ts[1..]);
    }
  }

  /** The first try to reach the service decides, for the service and for the caller: later ones find
      the token gone. If its answer is lost, a redeemed token's successor is live and nobody holds it. */
  lemma {:induction false} OnlyTheFirstReachedCounts(users: Users, live: map<Text, Text>, token: Text, ts: seq<Try>)
    requires Fresh(ts, token)
    ensures var t := FirstReached(ts);
            Tries(users, live, token, ts) ==
            if t.Unreached? || token == [] || token !in live then (live, None)
            else if !Redeemable(users, live, token, t.moment) then (live - {token}, None)
            else ((live - {token})[t.moment.token := live[token]], if t.Answered? then Some(t.moment.token) else None)
  {
    if token == [] {
      EmptyIsRefused(users, live, ts);
    } else if ts != [] {
      if ts[0].Unreached? {
        assert Fresh(ts[1..], token);
        OnlyTheFirstReachedCounts(users, live, token, ts[1..]);
      } else {
        RefusedStaysRefused(users, Redeem(users, live, token, ts[0].moment).0, token, ts[1..]);
      }
    }
  }

  /** Whether a redemption of the token gets a successor back to the caller. */
  predicate Fetches(users: Users, live: map<Text, Text>, token: Text, ts: seq<Try>) {
    FirstReached(ts).Answered? && Redeemable(users, live, token, FirstReached(ts).moment)
  }

  /** The server's one redemption is answered by the service, over these tries. */
  ghost predicate AnsweredBy(c: Redemption, users: Users, live: map<Text, Text>, ts: seq<Try>) {
    var successor := Tries(users, live, c.token, ts).1;
    c.reply.Some? == successor.Some? && (successor.Some? ==> c.reply.value.token == successor.value)
  }

  /** The text of a signed access token is three parts joined by dots. */
  ghost predicate Dotted(sign: Access -> Text) {
    forall a :: DOT in sign(a)
  }

  /** The service's replies: a signed access token to a login or registration, which are the admissions
      that asked for a name, and a refresh token to a refresh. */
  ghost predicate ServedBy(s: Server, sign: Access -> Text) {
    && s.Admitted?
    && (s.typed.Some? ==> exists a :: s.account.token == sign(a))
    && (s.typed.None? ==> IsHex(s.account.token))
  }

  /** The client keeps the token it was sent exactly when there is no capital letter in it. */
  lemma KeptExactlyInLowerCase(moves: seq<Move>)
    requires Handshake.Run(moves).client.Finished? && Handshake.Run(moves).server.Admitted?
    ensures var token := Handshake.Run(moves).server.account.token;
            Handshake.Run(moves).client.credentials.refreshToken == token <==> forall b | b in token :: !(65 <= b <= 90)
  {
    BothLeaveOnTheSameFrame(moves);
    var token := Handshake.Run(moves).server.account.token;
    assert forall i | 0 <= i < |token| :: token[i] in token;
    if Lower(token) == token {
      forall b | b in token ensures !(65 <= b <= 90) {
        var i :| 0 <= i < |token| && token[i] == b;
        assert Lower(token)[i] == LowerByte(b);
      }
    }
  }

  /** A silent attempt that has ended succeeded exactly if the stored token fetched a successor. */
  lemma AttemptExactly(stored: Credentials, turns: seq<Turn>, users: Users, live: map<Text, Text>, ts: seq<Try>)
    requires forall c | c in Run(stored, turns).calls :: AnsweredBy(c, users, live, ts)
    ensures var a := Run(stored, turns);
            !a.client.Trying? ==> (a.client.Restored? <==> Tries(users, live, stored.refreshToken, ts).1.Some?)
  {
    OneRedemptionDecides(stored, turns);
    var a := Run(stored, turns);
    if a.calls != [] {
      assert a.calls[0] in a.calls;
    }
  }

  /** What the stored token would fetch, against the token that was sent. */
  lemma StoredTokenFetches(s: Server, sign: Access -> Text, users: Users, live: map<Text, Text>, ts: seq<Try>)
    requires Dotted(sign) && ServedBy(s, sign) && HexKeys(live) && Fresh(ts, s.account.token)
    ensures Tries(users, live, Lower(s.account.token), ts).1.Some? <==>
            s.typed.None? && Fetches(users, live, s.account.token, ts)
  {
    if s.typed.Some? {
      DottedIsNotLive(live, s.account.token);
      RefusedStaysRefused(users, live, Lower(s.account.token), ts);
    } else {
      HexIsPresentable(s.account.token);
      OnlyTheFirstReachedCounts(users, live, s.account.token, ts);
    }
  }

  /** A session that began with the dialogue and is lost is restored silently if and only if it began
      with a refresh and the token it was then sent still fetches a successor. One that began with a
      login or a registration never is: the client stored its access token. */
  lemma RestoredExactly(sign: Access -> Text, moves: seq<Move>, turns: seq<Turn>,
                        users: Users, live: map<Text, Text>, ts: seq<Try>)
    requires Handshake.Run(moves).client.Finished? && ServedBy(Handshake.Run(moves).server, sign)
    requires Dotted(sign) && HexKeys(live) && Fresh(ts, Handshake.Run(moves).server.account.token)
    requires forall c | c in Run(Handshake.Run(moves).client.credentials, turns).calls :: AnsweredBy(c, users, live, ts)
    ensures var s, a := Handshake.Run(moves).server, Run(Handshake.Run(moves).client.credentials, turns);
            !a.client.Trying? ==> (a.client.Restored? <==> s.typed.None? && Fetches(users, live, s.account.token, ts))
  {
    var d := Handshake.Run(moves);
    BothLeaveOnTheSameFrame(moves);
    StoredTokenFetches(d.server, sign, users, live, ts);
    AttemptExactly(d.client.credentials, turns, users, live, ts);
  }

  lemma RestoredShape(stage: Stage, stored: Credentials)
    requires Shape(stage, stored).client.Restored?
    ensures stage.Succeeded?
    ensures Shape(stage, stored).client.credentials == Credentials(stored.username, Lower(stage.account.token))
    ensures Shape(stage, stored).server == Admitted(stage.account, None)
  {
  }

  /** After a silent attempt that succeeds, the client holds the refresh token it was sent. */
  lemma RestoredSessionKeepsItsToken(stored: Credentials, turns: seq<Turn>)
    requires Run(stored, turns).client.Restored?
    requires Run(stored, turns).server.Admitted? && IsHex(Run(stored, turns).server.account.token)
    ensures Run(stored, turns).client.credentials
            == Credentials(stored.username, Run(stored, turns).server.account.token)
  {
    EveryAttemptIsOnCourse(stored, turns);
    RestoredShape(Course(turns), stored);
    HexIsPresentable(Run(stored, turns).server.account.token);
  }

  /** So a session that a silent attempt restored, once lost again, is restored if and only if the token
      sent in that attempt still fetches a successor. */
  lemma RestoredAgainExactly(stored: Credentials, turns: seq<Turn>, again: seq<Turn>,
                             users: Users, live: map<Text, Text>, ts: seq<Try>)
    requires Run(stored, turns).client.Restored?
    requires Run(stored, turns).server.Admitted? && IsHex(Run(stored, turns).server.account.token)
    requires Fresh(ts, Run(stored, turns).server.account.token)
    requires forall c | c in Run(Run(stored, turns).client.credentials, again).calls :: AnsweredBy(c, users, live, ts)
    ensures var token, a := Run(stored, turns).server.account.token, Run(Run(stored, turns).client.credentials, again);
            !a.client.Trying? ==> (a.client.Restored? <==> Fetches(users, live, token, ts))
  {
    RestoredSessionKeepsItsToken(stored, turns);
    OnlyTheFirstReachedCounts(users, live, Run(stored, turns).server.account.token, ts);
    AttemptExactly(Run(stored, turns).client.credentials, again, users, live, ts);
  }

  // ------------------------------------------------------- a login, and the reconnect after it

  lemma CourseSnoc(turns: seq<Turn>, turn: Turn)
    ensures Course(turns + [turn]) == After(Course(turns), turn)
  {
    assert (turns + [turn])[..|turns|] == turns;
  }

  /** An attempt that is refused, from the greeting to the end. */
  function RefusedTurns(v: Verdict): seq<Turn> {
    [ClientTurn] + [ServerTurn(v)] + [ClientTurn] + [ServerTurn(v)] + [ClientTurn]
  }

  lemma RefusedCourse(v: Verdict)
    requires v.reply.None?
    ensures Course(RefusedTurns(v)) == Abandoned
  {
    var t1: seq<Turn> := [ClientTurn];
    var t2 := t1 + [ServerTurn(v)];
    var t3 := t2 + [ClientTurn];
    var t4 := t3 + [ServerTurn(v)];
    assert [] + t1 == t1;
    CourseSnoc([], ClientTurn);
    CourseSnoc(t1, ServerTurn(v));
    CourseSnoc(t2, ClientTurn);
    CourseSnoc(t3, ServerTurn(v));
    CourseSnoc(t4, ClientTurn);
  }

  lemma RefusedIsAbandoned(stored: Credentials, v: Verdict)
    requires v.reply.None?
    ensures Run(stored, RefusedTurns(v)) == Shape(Abandoned, stored)
  {
    RefusedCourse(v);
    EveryAttemptIsOnCourse(stored, RefusedTurns(v));
  }

  /** Such runs exist for every account: log in, lose the connection, be refused, whatever the service holds. */
  lemma LoginThenReconnectGivesUp(sign: Access -> Text, access: Access, password: Text, v: Verdict, refused: Verdict,
                                  users: Users, live: map<Text, Text>, ts: seq<Try>)
    requires Dotted(sign) && HexKeys(live) && Fresh(ts, sign(access))
    requires v.reply == Some(Account(access.sub, access.uid, sign(access))) && access.sub !in v.present
    requires Presentable(sign(access)) && refused.reply.None?
    ensures var d := Handshake.Run(LoginRun(access.sub, password, v));
            && d.client == Finished(Credentials(access.sub, Lower(sign(access)))) && ServedBy(d.server, sign)
            && var a := Run(d.client.credentials, RefusedTurns(refused));
               a.client.GaveUp? && a.calls != [] && forall c | c in a.calls :: AnsweredBy(c, users, live, ts)
  {
    LoginFinishes(access.sub, password, v);
    var d := Handshake.Run(LoginRun(access.sub, password, v));
    RefusedIsAbandoned(d.client.credentials, refused);
    StoredTokenFetches(d.server, sign, users, live, ts);
  }
}
