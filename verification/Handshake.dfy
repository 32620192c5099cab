/** The authentication dialogue: the server's greeting and auth loop composed with the client's
    interactive handshake over two queues of frames. */
module Handshake {
  import opened Wrappers
  import opened Rooms
  import opened Prompts

  datatype Credentials = Credentials(username: Text, refreshToken: Text)

  // ------------------------------------------------------------------------- the server

  datatype Command = Register | Login

  /** What the auth service returns: the username and user id, and the token the server will send. */
  datatype Account = Account(username: Text, userId: Text, token: Text)

  /** The world at one read of the server: the registration limiter's answer, the auth service's
      reply if a call is made (None after three failed attempts), and who is present. */
  datatype Verdict = Verdict(allowed: bool, reply: Option<Account>, present: set<Text>)

  /** Which read the server is blocked on; once admitted, the name the user typed, if one was asked for. */
  datatype Server =
    | AwaitCommand
    | AwaitUsername(command: Command)
    | AwaitPassword(command: Command, username: Text)
    | AwaitToken
    | Admitted(account: Account, typed: Option<Text>)

  /** Everything the server does between one read and the next: where it blocks, what it has sent. */
  function Serve(s: Server, frame: Text, v: Verdict): (Server, seq<Text>)
    requires !s.Admitted?
  {
    match s
    case AwaitCommand =>
      var command := TrimSpace(frame);
      if command == REGISTER_COMMAND then
        if v.allowed then (AwaitUsername(Register), [ASK_USERNAME]) else (AwaitCommand, [LIMITED, ENTER])
      else if command == LOGIN_COMMAND then (AwaitUsername(Login), [ASK_USERNAME])
      else if command == REFRESH_COMMAND then (AwaitToken, [ASK_TOKEN])
      else (AwaitCommand, [INVALID])
    case AwaitUsername(command) => (AwaitPassword(command, frame), [ASK_PASSWORD])
    case AwaitPassword(command, username) =>
      if v.reply.None? then (AwaitCommand, [UNAVAILABLE, ENTER])
      else if command.Login? && v.reply.value.username in v.present then (AwaitCommand, [LOGGED_IN, ENTER])
      else
        (Admitted(v.reply.value, Some(username)),
         [if command.Register? then REGISTERED else LOGIN_OK, FINAL + v.reply.value.token])
    case AwaitToken =>
      if v.reply.None? then (AwaitCommand, [UNAVAILABLE, ENTER])
      else (Admitted(v.reply.value, None), [LOGIN_OK, FINAL + v.reply.value.token])
  }

  /** A read ends the loop exactly when it completes a request that the auth service granted, unless
      it is a login of someone already present; the registration limiter only gates /register. */
  lemma AdmittedExactly(s: Server, frame: Text, v: Verdict)
    requires !s.Admitted?
    ensures Serve(s, frame, v).0.Admitted? <==>
            && v.reply.Some?
            && (s.AwaitToken? || (s.AwaitPassword? && (s.command.Login? ==> v.reply.value.username !in v.present)))
    ensures Serve(s, frame, v).0 == AwaitUsername(Register) <==>
            s.AwaitCommand? && TrimSpace(frame) == REGISTER_COMMAND && v.allowed
  {
    assert |REGISTER_COMMAND| == 9 && |LOGIN_COMMAND| == 6;
  }

  // ------------------------------------------------------------------------- the client

  datatype Client =
    | Listening(username: Text)
    | Typing(prompt: Text, username: Text)
    | Finished(credentials: Credentials)

  function Hear(username: Text, frame: Text): Client {
    match Interactive(frame)
    case Final(token) => Finished(Credentials(username, token))
    case Asked(prompt) => Typing(prompt, username)
    case _ => Listening(username)
  }

  /** The username the client remembers once this line has answered the prompt. */
  function Remember(prompt: Text, username: Text, line: Text): Text {
    if !Includes(prompt, PASSWORD) && Includes(prompt, USERNAME) then line else username
  }

  // -------------------------------------------------------------------- the two together

  /** Frames on their way from server to client, and from client to server. */
  datatype Dialogue = Dialogue(server: Server, client: Client, down: seq<Text>, up: seq<Text>)

  datatype Move = ServerReads(verdict: Verdict) | ClientReads | UserTypes(line: Text)

  function Do(d: Dialogue, a: Move): Dialogue {
    match a
    case ServerReads(v) =>
      if d.server.Admitted? || d.up == [] then d
      else
        var (server, sent) := Serve(d.server, d.up[0], v);
        Dialogue(server, d.client, d.down + sent, d.up[1..])
    case ClientReads =>
      if !d.client.Listening? || d.down == [] then d
      else d.(client := Hear(d.client.username, d.down[0]), down := d.down[1..])
    case UserTypes(line) =>
      if !d.client.Typing? then d
      else d.(client := Listening(Remember(d.client.prompt, d.client.username, line)), up := d.up + [line])
  }

  function Run(moves: seq<Move>): Dialogue {
    if moves == [] then Dialogue(AwaitCommand, Listening([]), [WELCOME], [])
    else Do(Run(moves[..|moves| - 1]), moves[|moves| - 1])
  }

  // ---------------------------------------------------------------------------- lockstep

  /** The prompts that announce a read. */
  predicate PromptFor(s: Server, p: Text) {
    match s
    case AwaitCommand => p == WELCOME || p == ENTER || p == INVALID
    case AwaitUsername(_) => p == ASK_USERNAME
    case AwaitPassword(_, _) => p == ASK_PASSWORD
    case AwaitToken => p == ASK_TOKEN
    case Admitted(_, _) => false
  }

  /** At most one notice, and then this frame. */
  predicate Delivers(down: seq<Text>, last: Text) {
    down == [last] || (|down| == 2 && down[1] == last && Interactive(down[0]) == Ignored)
  }

  /** The name typed for the login or registration under way, if it has been typed. */
  predicate RemembersFor(s: Server, up: seq<Text>, username: Text) {
    match s
    case AwaitUsername(_) => up == [] || username == up[0]
    case AwaitPassword(_, name) => username == name
    case Admitted(_, typed) => typed.Some? ==> username == typed.value
    case _ => true
  }

  /** While the server waits, exactly one thing is outstanding: its prompt on the way, the user typing
      the answer, or the answer on the way back. Once it has admitted the user, the last frame is on
      its way, or has been taken for what it is, or, if its token does not let it, for a notice. */
  predicate Lockstep(d: Dialogue) {
    match d.client
    case Finished(credentials) =>
      && d.server.Admitted? && d.down == [] && d.up == [] && Presentable(d.server.account.token)
      && credentials.refreshToken == Lower(d.server.account.token)
      && RemembersFor(d.server, d.up, credentials.username)
    case Typing(prompt, username) =>
      PromptFor(d.server, prompt) && d.down == [] && d.up == [] && RemembersFor(d.server, d.up, username)
    case Listening(username) =>
      && RemembersFor(d.server, d.up, username)
      && if d.server.Admitted? then
           && d.up == []
           && if d.down == [] then !Presentable(d.server.account.token)
              else Delivers(d.down, FINAL + d.server.account.token)
         else if d.down == [] then |d.up| == 1
         else d.up == [] && Delivers(d.down, d.down[|d.down| - 1]) && PromptFor(d.server, d.down[|d.down| - 1])
  }

  lemma PromptsAreAsked(s: Server, p: Text)
    requires PromptFor(s, p)
    ensures Interactive(p) == Asked(p)
  {
    match s
    case AwaitCommand =>
      ReadsWelcome();
      ReadsEnter();
      ReadsInvalid();
    case AwaitUsername(_) => ReadsAskUsername();
    case AwaitPassword(_, _) => ReadsAskPassword();
    case AwaitToken => ReadsAskToken();
  }

  /** Answering the server's prompt makes the client remember a name exactly when one was asked for. */
  lemma RememberFollowsTheServer(s: Server, p: Text, username: Text, line: Text)
    requires PromptFor(s, p) && RemembersFor(s, [], username)
    ensures RemembersFor(s, [line], Remember(p, username, line))
  {
    match s
    case AwaitUsername(_) => ReadsAskUsername();
    case AwaitPassword(_, _) => ReadsAskPassword();
    case _ =>
  }

  lemma NoticesAreIgnored(t: Text)
    requires t == LIMITED || t == UNAVAILABLE || t == LOGGED_IN || t == REGISTERED || t == LOGIN_OK
    ensures Interactive(t) == Ignored
  {
    ReadsLimited();
    ReadsUnavailable();
    ReadsLoggedIn();
    ReadsRegistered();
    ReadsLoginOk();
  }

  predicate Sends(s: Server, sent: seq<Text>) {
    && |sent| > 0 && Delivers(sent, sent[|sent| - 1])
    && if s.Admitted? then sent[|sent| - 1] == FINAL + s.account.token else PromptFor(s, sent[|sent| - 1])
  }

  lemma SendsOne(s: Server, prompt: Text)
    requires PromptFor(s, prompt)
    ensures Sends(s, [prompt])
  {
  }

  lemma SendsTwo(s: Server, notice: Text, last: Text)
    requires Interactive(notice) == Ignored
    requires if s.Admitted? then last == FINAL + s.account.token else PromptFor(s, last)
    ensures Sends(s, [notice, last])
  {
  }

  /** Every read leaves the server either at another read it has just prompted for, or done. */
  lemma ServeSends(s: Server, frame: Text, v: Verdict)
    requires !s.Admitted?
    ensures Sends(Serve(s, frame, v).0, Serve(s, frame, v).1)
  {
    var (s', sent) := Serve(s, frame, v);
    if |sent| == 1 {
      SendsOne(s', sent[0]);
    } else {
      NoticesAreIgnored(sent[0]);
      SendsTwo(s', sent[0], sent[1]);
      assert sent == [sent[0], sent[1]];
    }
  }

  lemma ServeRemembers(s: Server, frame: Text, v: Verdict, username: Text)
    requires !s.Admitted? && RemembersFor(s, [frame], username)
    ensures RemembersFor(Serve(s, frame, v).0, [], username)
  {
  }

  lemma LineIsServed(s: Server, username: Text, line: Text, v: Verdict)
    requires !s.Admitted?
    ensures var (s', sent) := Serve(s, line, v);
            Do(Dialogue(s, Listening(username), [], [line]), ServerReads(v))
            == Dialogue(s', Listening(username), sent, [])
  {
    var (s', sent) := Serve(s, line, v);
    assert [] + sent == sent;
  }

  lemma SentIsInLockstep(s: Server, username: Text, sent: seq<Text>)
    requires Sends(s, sent) && RemembersFor(s, [], username)
    ensures Lockstep(Dialogue(s, Listening(username), sent, []))
  {
  }

  lemma ServerKeepsLockstep(d: Dialogue, v: Verdict)
    requires Lockstep(d)
    ensures Lockstep(Do(d, ServerReads(v)))
  {
    if !d.server.Admitted? && d.up != [] {
      var username, line := d.client.username, d.up[0];
      assert d == Dialogue(d.server, Listening(username), [], [line]);
      ServeSends(d.server, line, v);
      ServeRemembers(d.server, line, v, username);
      LineIsServed(d.server, username, line, v);
      SentIsInLockstep(Serve(d.server, line, v).0, username, Serve(d.server, line, v).1);
    }
  }

  lemma ClientKeepsLockstep(d: Dialogue)
    requires Lockstep(d)
    ensures Lockstep(Do(d, ClientReads))
  {
    if d.client.Listening? && d.down != [] {
      if |d.down| == 1 {
        if d.server.Admitted? {
          ReadsFinalExactly(d.server.account.token);
        } else {
          PromptsAreAsked(d.server, d.down[0]);
        }
      }
    }
  }

  lemma UserKeepsLockstep(d: Dialogue, line: Text)
    requires Lockstep(d)
    ensures Lockstep(Do(d, UserTypes(line)))
  {
    if d.client.Typing? {
      RememberFollowsTheServer(d.server, d.client.prompt, d.client.username, line);
    }
  }

  lemma {:induction false} EveryRunIsInLockstep(moves: seq<Move>)
    ensures Lockstep(Run(moves))
  {
    if moves != [] {
      var n := |moves| - 1;
      EveryRunIsInLockstep(moves[..n]);
      match moves[n]
      case ServerReads(v) => ServerKeepsLockstep(Run(moves[..n]), v);
      case ClientReads => ClientKeepsLockstep(Run(moves[..n]));
      case UserTypes(line) => UserKeepsLockstep(Run(moves[..n]), line);
    }
  }

  /** The frames on their way that the client will answer. */
  function Unanswered(down: seq<Text>): nat {
    if down == [] then 0
    else Unanswered(down[..|down| - 1]) + (if Interactive(down[|down| - 1]).Asked? then 1 else 0)
  }

  lemma UnansweredIsTheLast(down: seq<Text>, last: Text)
    requires Delivers(down, last)
    ensures Unanswered(down) == if Interactive(last).Asked? then 1 else 0
  {
    if |down| == 2 {
      var front := down[..1];
      assert front[..0] == [] && front[0] == down[0];
      assert Unanswered(front) == 0;
    } else {
      assert down[..0] == [];
    }
  }

  /** Every read the server blocks on is matched by exactly one prompt on its way, or the user
      answering one, or one answer on its way back; and none is left once it has admitted the user. */
  lemma OneThingOutstanding(moves: seq<Move>)
    ensures var d := Run(moves);
            Unanswered(d.down) + (if d.client.Typing? then 1 else 0) + |d.up| == if d.server.Admitted? then 0 else 1
  {
    EveryRunIsInLockstep(moves);
    var d := Run(moves);
    if d.down != [] {
      var last := d.down[|d.down| - 1];
      UnansweredIsTheLast(d.down, last);
      if d.server.Admitted? {
        ReadsFinalExactly(d.server.account.token);
      } else {
        PromptsAreAsked(d.server, last);
      }
    }
  }

  /** The client answers only prompts, and the one it answers is the one for the read the server is
      blocked on, whatever was sent before it. */
  lemma OnlyTheServersPromptIsAnswered(moves: seq<Move>)
    requires Run(moves).client.Typing?
    ensures var d := Run(moves);
            && PromptFor(d.server, d.client.prompt) && Interactive(d.client.prompt) == Asked(d.client.prompt)
            && d.down == [] && d.up == []
  {
    EveryRunIsInLockstep(moves);
    PromptsAreAsked(Run(moves).server, Run(moves).client.prompt);
  }

  /** The two are both blocked on an empty queue, with the user not typing, in one case only: the
      server has admitted the user and the client has taken the last frame for a notice. */
  lemma BothWaitingExactly(moves: seq<Move>)
    requires Run(moves).client.Listening?
    ensures var d := Run(moves);
            (d.down == [] && (d.up == [] || d.server.Admitted?)) <==>
            (d.down == [] && d.server.Admitted? && !Presentable(d.server.account.token))
  {
    EveryRunIsInLockstep(moves);
  }

  /** The client leaves on the very frame the server left on: nothing is under way any more, the client
      holds that frame's token in lower case, and the name typed if the server asked for one. */
  lemma BothLeaveOnTheSameFrame(moves: seq<Move>)
    requires Run(moves).client.Finished?
    ensures var d := Run(moves);
            && d.server.Admitted? && d.down == [] && d.up == []
            && d.client.credentials.refreshToken == Lower(d.server.account.token)
            && (d.server.typed.Some? ==> d.client.credentials.username == d.server.typed.value)
  {
    EveryRunIsInLockstep(moves);
  }

  /** In every run that has admitted the user and delivered everything, the client has left if and only
      if the token is presentable; otherwise it listens on, unanswered, to a server that has moved on
      to the command loop. */
  lemma LeavesExactlyWhenPresentable(moves: seq<Move>)
    requires Run(moves).server.Admitted? && Run(moves).down == []
    ensures Run(moves).client.Finished? <==> Presentable(Run(moves).server.account.token)
    ensures Run(moves).client.Listening? <==> !Presentable(Run(moves).server.account.token)
  {
    EveryRunIsInLockstep(moves);
  }

  // --------------------------------------------------------------------- a run that logs in

  lemma RunSnoc(moves: seq<Move>, a: Move)
    ensures Run(moves + [a]) == Do(Run(moves), a)
  {
    assert (moves + [a])[..|moves|] == moves;
  }

  /** One prompt delivered, answered and acted on. */
  function Exchange(line: Text, v: Verdict): seq<Move> {
    [ClientReads, UserTypes(line), ServerReads(v)]
  }

  lemma PromptIsHeard(s: Server, username: Text, prompt: Text)
    requires Interactive(prompt) == Asked(prompt)
    ensures Do(Dialogue(s, Listening(username), [prompt], []), ClientReads)
            == Dialogue(s, Typing(prompt, username), [], [])
  {
  }

  lemma LineIsTyped(s: Server, username: Text, prompt: Text, line: Text)
    ensures Do(Dialogue(s, Typing(prompt, username), [], []), UserTypes(line))
            == Dialogue(s, Listening(Remember(prompt, username, line)), [], [line])
  {
    assert [] + [line] == [line];
  }

  lemma ExchangeServes(moves: seq<Move>, s: Server, username: Text, prompt: Text, line: Text, v: Verdict)
    requires Run(moves) == Dialogue(s, Listening(username), [prompt], [])
    requires Interactive(prompt) == Asked(prompt) && !s.Admitted?
    ensures var (s', sent) := Serve(s, line, v);
            Run(moves + Exchange(line, v)) == Dialogue(s', Listening(Remember(prompt, username, line)), sent, [])
  {
    var m1 := moves + [ClientReads];
    var m2 := m1 + [UserTypes(line)];
    RunSnoc(moves, ClientReads);
    RunSnoc(m1, UserTypes(line));
    RunSnoc(m2, ServerReads(v));
    assert m2 + [ServerReads(v)] == moves + Exchange(line, v);
    PromptIsHeard(s, username, prompt);
    LineIsTyped(s, username, prompt, line);
    LineIsServed(s, Remember(prompt, username, line), line, v);
  }

  /** A login: the command, the name and the password typed, and the account granted. */
  function LoginSoFar(name: Text, password: Text, v: Verdict): seq<Move> {
    Exchange(LOGIN_COMMAND, v) + Exchange(name, v) + Exchange(password, v)
  }

  /** And both frames read. */
  function LoginRun(name: Text, password: Text, v: Verdict): seq<Move> {
    LoginSoFar(name, password, v) + [ClientReads] + [ClientReads]
  }

  lemma LoginCommandServes(v: Verdict)
    ensures Serve(AwaitCommand, LOGIN_COMMAND, v) == (AwaitUsername(Login), [ASK_USERNAME])
  {
    NothingToTrim(LOGIN_COMMAND);
    assert |REGISTER_COMMAND| == 9 && |LOGIN_COMMAND| == 6;
  }

  lemma LoginAsksForTheName(v: Verdict)
    ensures Run(Exchange(LOGIN_COMMAND, v))
            == Dialogue(AwaitUsername(Login), Listening(Remember(WELCOME, [], LOGIN_COMMAND)), [ASK_USERNAME], [])
  {
    assert [] + Exchange(LOGIN_COMMAND, v) == Exchange(LOGIN_COMMAND, v);
    LoginCommandServes(v);
    ReadsWelcome();
    ExchangeServes([], AwaitCommand, [], WELCOME, LOGIN_COMMAND, v);
  }

  lemma NameIsTaken(moves: seq<Move>, username: Text, name: Text, v: Verdict)
    requires Run(moves) == Dialogue(AwaitUsername(Login), Listening(username), [ASK_USERNAME], [])
    ensures Run(moves + Exchange(name, v)) == Dialogue(AwaitPassword(Login, name), Listening(name), [ASK_PASSWORD], [])
  {
    ReadsAskUsername();
    ExchangeServes(moves, AwaitUsername(Login), username, ASK_USERNAME, name, v);
  }

  lemma PasswordIsTaken(moves: seq<Move>, name: Text, password: Text, v: Verdict)
    requires Run(moves) == Dialogue(AwaitPassword(Login, name), Listening(name), [ASK_PASSWORD], [])
    requires v.reply.Some? && v.reply.value.username !in v.present
    ensures Run(moves + Exchange(password, v))
            == Dialogue(Admitted(v.reply.value, Some(name)), Listening(name),
                        [LOGIN_OK, FINAL + v.reply.value.token], [])
  {
    ReadsAskPassword();
    ExchangeServes(moves, AwaitPassword(Login, name), name, ASK_PASSWORD, password, v);
  }

  lemma NoticeIsRead(d: Dialogue, username: Text, notice: Text, last: Text)
    requires d.client == Listening(username) && d.down == [notice, last] && Interactive(notice) == Ignored
    ensures Do(d, ClientReads) == d.(down := [last])
  {
  }

  lemma FinalIsRead(d: Dialogue, username: Text, token: Text)
    requires d.client == Listening(username) && d.down == [FINAL + token] && Presentable(token)
    ensures Do(d, ClientReads) == d.(down := [], client := Finished(Credentials(username, Lower(token))))
  {
    ReadsFinalExactly(token);
  }

  lemma LoginIsAdmitted(name: Text, password: Text, v: Verdict)
    requires v.reply.Some? && v.reply.value.username !in v.present
    ensures Run(LoginSoFar(name, password, v))
            == Dialogue(Admitted(v.reply.value, Some(name)), Listening(name),
                        [LOGIN_OK, FINAL + v.reply.value.token], [])
  {
    var m1 := Exchange(LOGIN_COMMAND, v);
    var m2 := m1 + Exchange(name, v);
    LoginAsksForTheName(v);
    NameIsTaken(m1, Remember(WELCOME, [], LOGIN_COMMAND), name, v);
    PasswordIsTaken(m2, name, password, v);
  }

  /** Whoever logs in with an account that is not present and a presentable token ends up with the
      token, in lower case. */
  lemma LoginFinishes(name: Text, password: Text, v: Verdict)
    requires v.reply.Some? && v.reply.value.username !in v.present && Presentable(v.reply.value.token)
    ensures var d := Run(LoginRun(name, password, v));
            && d.server == Admitted(v.reply.value, Some(name))
            && d.client == Finished(Credentials(name, Lower(v.reply.value.token)))
  {
    var m3, last := LoginSoFar(name, password, v), FINAL + v.reply.value.token;
    LoginIsAdmitted(name, password, v);
    RunSnoc(m3, ClientReads);
    RunSnoc(m3 + [ClientReads], ClientReads);
    ReadsLoginOk();
    NoticeIsRead(Run(m3), name, LOGIN_OK, last);
    FinalIsRead(Run(m3).(down := [last]), name, v.reply.value.token);
  }

  lemma SwallowedIsRead(d: Dialogue, username: Text, token: Text)
    requires d.client == Listening(username) && d.down == [FINAL + token] && !Presentable(token)
    ensures Do(d, ClientReads) == d.(down := [])
  {
    ReadsFinalExactly(token);
  }

  /** And whoever logs in with any other token is stuck: admitted, and listening with nothing to come. */
  lemma LoginIsSwallowed(name: Text, password: Text, v: Verdict)
    requires v.reply.Some? && v.reply.value.username !in v.present && !Presentable(v.reply.value.token)
    ensures Run(LoginRun(name, password, v)) == Dialogue(Admitted(v.reply.value, Some(name)), Listening(name), [], [])
  {
    var m3, last := LoginSoFar(name, password, v), FINAL + v.reply.value.token;
    LoginIsAdmitted(name, password, v);
    RunSnoc(m3, ClientReads);
    RunSnoc(m3 + [ClientReads], ClientReads);
    ReadsLoginOk();
    NoticeIsRead(Run(m3), name, LOGIN_OK, last);
    SwallowedIsRead(Run(m3).(down := [last]), name, v.reply.value.token);
  }
}
