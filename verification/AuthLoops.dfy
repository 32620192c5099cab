/** The loops themselves: the server's runAuthLoop and the client's runAuthHandshake and runSilentAuth
    read and write a connection, one frame at a time, and do to it what the dialogue's step functions say. */
module AuthLoops {
  import opened Wrappers
  import opened Framing
  import opened Rooms
  import opened Prompts
  import opened Handshake
  import opened Reconnects

  /** Where a loop stops, everything it has sent, and what it has not read. */
  type ServerRun = (Server, seq<Text>, seq<byte>)

  type ClientRun = (Client, seq<Text>, seq<byte>)

  type RetryRun = (Retry, seq<Text>, seq<byte>)

  // ---------------------------------------------------------------------------- the server

  /** The server fed with a whole stream. world(k) is the state of the world at the k-th read. */
  function ServeAll(s: Server, stream: seq<byte>, world: nat -> Verdict, k: nat): ServerRun
    decreases |stream|
  {
    if s.Admitted? then (s, [], stream)
    else
      var (r, rest) := Decode(stream);
      if r.Failed? then (s, [], rest)
      else
        var (s', sent) := Serve(s, r.data, world(k));
        var (end, more, unread) := ServeAll(s', rest, world, k + 1);
        (end, sent + more, unread)
  }

  /** After sending some frames and reading up to this stream, the server has this much of a whole
      run left to do. */
  ghost predicate Left(all: ServerRun, sent: seq<Text>, s: Server, stream: seq<byte>, world: nat -> Verdict, k: nat) {
    var (end, more, unread) := ServeAll(s, stream, world, k);
    all == (end, sent + more, unread)
  }

  lemma OneRead(all: ServerRun, sent: seq<Text>, s: Server, stream: seq<byte>, world: nat -> Verdict, k: nat,
                data: Text, rest: seq<byte>, s': Server, out: seq<Text>)
    requires Left(all, sent, s, stream, world, k) && !s.Admitted?
    requires Decode(stream) == (Frame(data), rest) && Serve(s, data, world(k)) == (s', out)
    ensures Left(all, sent + out, s', rest, world, k + 1)
  {
    var (end, more, unread) := ServeAll(s', rest, world, k + 1);
    assert ServeAll(s, stream, world, k) == (end, out + more, unread);
    assert sent + (out + more) == (sent + out) + more;
  }

  lemma NoMoreReads(all: ServerRun, sent: seq<Text>, s: Server, stream: seq<byte>, world: nat -> Verdict, k: nat)
    requires Left(all, sent, s, stream, world, k)
    requires s.Admitted? || Decode(stream).0.Failed?
    ensures all == (s, sent, if s.Admitted? then stream else Decode(stream).1)
  {
    assert sent + [] == sent;
  }

  lemma EncodeOneMore(sent: seq<Text>, text: Text)
    ensures EncodeAll(sent + [text]) == EncodeAll(sent) + Encode(text)
  {
    EncodeAllConcat(sent, [text]);
    assert EncodeAll([text]) == Encode(text);
  }

  /** What a connection has sent once these frames have been written to it. */
  function Output(broken: bool, before: seq<byte>, sent: seq<Text>): seq<byte> {
    if broken then before else before + EncodeAll(sent)
  }

  /** WriteMessage, its error ignored. */
  method Say(conn: Conn, text: Text, ghost before: seq<byte>, ghost sent: seq<Text>) returns (ghost sent': seq<Text>)
    requires conn.outgoing == Output(conn.broken, before, sent)
    modifies conn`outgoing
    ensures sent' == sent + [text] && conn.outgoing == Output(conn.broken, before, sent')
  {
    EncodeOneMore(sent, text);
    var _ := WriteMessage(conn, text);
    sent' := sent + [text];
  }

  /** The sendError closure. */
  method SayError(conn: Conn, text: Text, ghost before: seq<byte>, ghost sent: seq<Text>)
    returns (ghost sent': seq<Text>)
    requires conn.outgoing == Output(conn.broken, before, sent)
    modifies conn`outgoing
    ensures sent' == sent + [text, ENTER] && conn.outgoing == Output(conn.broken, before, sent')
  {
    sent' := Say(conn, text, before, sent);
    sent' := Say(conn, ENTER, before, sent');
    assert sent' == sent + [text, ENTER];
  }

  /** ReadMessage, its error reduced to the fact that there was one. */
  method Next(conn: Conn) returns (frame: Option<Text>)
    modifies conn`incoming
    ensures var (r, rest) := Decode(old(conn.Pending()));
            conn.Pending() == rest && frame == if r.Frame? then Some(r.data) else None
    ensures frame.Some? ==> |conn.Pending()| < |old(conn.Pending())|
  {
    var r := ReadMessage(conn);
    frame := if r.Frame? then Some(r.data) else None;
  }

  /** How one pass through the loop ended. */
  datatype Pass = Again | Lost | Done(account: Account)

  /** What a pass through the loop has done to the connection, by the time it ends this way. */
  ghost predicate Passed(all: ServerRun, sent: seq<Text>, stream: seq<byte>,
                         world: nat -> Verdict, k: nat, pass: Pass) {
    match pass
    case Again => Left(all, sent, AwaitCommand, stream, world, k)
    case Lost => !all.0.Admitted? && all.1 == sent && all.2 == stream
    case Done(account) => all.0.Admitted? && all.0.account == account && all.1 == sent && all.2 == stream
  }

  /** The last two frames of an admission, and the end of the loop. */
  method Admit(conn: Conn, notice: Text, account: Account, typed: Option<Text>, world: nat -> Verdict, k: nat,
               ghost all: ServerRun, ghost before: seq<byte>, ghost sent: seq<Text>)
    returns (ghost sent': seq<Text>)
    requires conn.outgoing == Output(conn.broken, before, sent)
    requires Left(all, sent + [notice, FINAL + account.token], Admitted(account, typed), conn.Pending(), world, k)
    modifies conn`outgoing
    ensures conn.outgoing == Output(conn.broken, before, sent')
    ensures Passed(all, sent', conn.Pending(), world, k, Done(account))
  {
    sent' := Say(conn, notice, before, sent);
    sent' := Say(conn, FINAL + account.token, before, sent');
    assert sent' == sent + [notice, FINAL + account.token];
    NoMoreReads(all, sent', Admitted(account, typed), conn.Pending(), world, k);
  }

  /** The common part of /register and /login, once the password has been asked for. */
  method TakePassword(conn: Conn, kind: Command, name: Text, world: nat -> Verdict, k: nat,
                      ghost all: ServerRun, ghost before: seq<byte>, ghost sent: seq<Text>)
    returns (pass: Pass, ghost sent': seq<Text>)
    requires conn.outgoing == Output(conn.broken, before, sent)
    requires Left(all, sent, AwaitPassword(kind, name), conn.Pending(), world, k)
    modifies conn`incoming, conn`outgoing
    ensures conn.outgoing == Output(conn.broken, before, sent')
    ensures Passed(all, sent', conn.Pending(), world, k + 1, pass)
    ensures |conn.Pending()| <= |old(conn.Pending())|
  {
    sent' := sent;
    ghost var p := conn.Pending();
    var password := Next(conn);
    if password.None? {
      NoMoreReads(all, sent, AwaitPassword(kind, name), p, world, k);
      return Lost, sent;
    }
    ghost var (next, out) := Serve(AwaitPassword(kind, name), password.value, world(k));
    OneRead(all, sent, AwaitPassword(kind, name), p, world, k, password.value, conn.Pending(), next, out);
    var reply := world(k).reply;
    if reply.None? {
      sent' := SayError(conn, UNAVAILABLE, before, sent);
      return Again, sent';
    }
    if kind.Login? && reply.value.username in world(k).present {
      sent' := SayError(conn, LOGGED_IN, before, sent);
      return Again, sent';
    }
    var notice := if kind.Register? then REGISTERED else LOGIN_OK;
    sent' := Admit(conn, notice, reply.value, Some(name), world, k + 1, all, before, sent);
    return Done(reply.value), sent';
  }

  /** The common part of /register and /login, once the username has been asked for. */
  method TakeCredentials(conn: Conn, kind: Command, world: nat -> Verdict, k: nat,
                         ghost all: ServerRun, ghost before: seq<byte>, ghost sent: seq<Text>)
    returns (pass: Pass, ghost sent': seq<Text>)
    requires conn.outgoing == Output(conn.broken, before, sent)
    requires Left(all, sent, AwaitUsername(kind), conn.Pending(), world, k)
    modifies conn`incoming, conn`outgoing
    ensures conn.outgoing == Output(conn.broken, before, sent')
    ensures Passed(all, sent', conn.Pending(), world, k + 2, pass)
    ensures |conn.Pending()| <= |old(conn.Pending())|
  {
    ghost var p := conn.Pending();
    var name := Next(conn);
    if name.None? {
      NoMoreReads(all, sent, AwaitUsername(kind), p, world, k);
      return Lost, sent;
    }
    OneRead(all, sent, AwaitUsername(kind), p, world, k, name.value, conn.Pending(),
            AwaitPassword(kind, name.value), [ASK_PASSWORD]);
    sent' := Say(conn, ASK_PASSWORD, before, sent);
    pass, sent' := TakePassword(conn, kind, name.value, world, k + 1, all, before, sent');
  }

  /** /refresh, once the token has been asked for. */
  method TakeToken(conn: Conn, world: nat -> Verdict, k: nat,
                   ghost all: ServerRun, ghost before: seq<byte>, ghost sent: seq<Text>)
    returns (pass: Pass, ghost sent': seq<Text>)
    requires conn.outgoing == Output(conn.broken, before, sent)
    requires Left(all, sent, AwaitToken, conn.Pending(), world, k)
    modifies conn`incoming, conn`outgoing
    ensures conn.outgoing == Output(conn.broken, before, sent')
    ensures Passed(all, sent', conn.Pending(), world, k + 1, pass)
    ensures |conn.Pending()| <= |old(conn.Pending())|
  {
    sent' := sent;
    ghost var p := conn.Pending();
    var token := Next(conn);
    if token.None? {
      NoMoreReads(all, sent, AwaitToken, p, world, k);
      return Lost, sent;
    }
    ghost var (next, out) := Serve(AwaitToken, token.value, world(k));
    OneRead(all, sent, AwaitToken, p, world, k, token.value, conn.Pending(), next, out);
    var reply := world(k).reply;
    if reply.None? {
      sent' := SayError(conn, UNAVAILABLE, before, sent);
      return Again, sent';
    }
    sent' := Admit(conn, LOGIN_OK, reply.value, None, world, k + 1, all, before, sent);
    return Done(reply.value), sent';
  }

  /** None when the connection was lost first. */
  method RunAuthLoop(conn: Conn, world: nat -> Verdict) returns (admitted: Option<Account>)
    modifies conn`incoming, conn`outgoing
    ensures var (server, sent, unread) := ServeAll(AwaitCommand, old(conn.Pending()), world, 0);
            && conn.Pending() == unread
            && conn.outgoing == Output(conn.broken, old(conn.outgoing), sent)
            && admitted == if server.Admitted? then Some(server.account) else None
  {
    ghost var before, all := conn.outgoing, ServeAll(AwaitCommand, conn.Pending(), world, 0);
    ghost var sent: seq<Text> := [];
    var k := 0;
    assert [] + all.1 == all.1;
    while true
      invariant conn.outgoing == Output(conn.broken, before, sent)
      invariant Left(all, sent, AwaitCommand, conn.Pending(), world, k)
      decreases |conn.Pending()|
    {
      ghost var p := conn.Pending();
      var frame := Next(conn);
      if frame.None? {
        NoMoreReads(all, sent, AwaitCommand, p, world, k);
        return None;
      }
      ghost var (next, out) := Serve(AwaitCommand, frame.value, world(k));
      OneRead(all, sent, AwaitCommand, p, world, k, frame.value, conn.Pending(), next, out);
      var command := TrimSpace(frame.value);
      var pass := Again;
      if command == REGISTER_COMMAND {
        if !world(k).allowed {
          sent := SayError(conn, LIMITED, before, sent);
          k := k + 1;
        } else {
          sent := Say(conn, ASK_USERNAME, before, sent);
          pass, sent := TakeCredentials(conn, Register, world, k + 1, all, before, sent);
          k := k + 3;
        }
      } else if command == LOGIN_COMMAND {
        sent := Say(conn, ASK_USERNAME, before, sent);
        pass, sent := TakeCredentials(conn, Login, world, k + 1, all, before, sent);
        k := k + 3;
      } else if command == REFRESH_COMMAND {
        sent := Say(conn, ASK_TOKEN, before, sent);
        pass, sent := TakeToken(conn, world, k + 1, all, before, sent);
        k := k + 2;
      } else {
        sent := Say(conn, INVALID, before, sent);
        k := k + 1;
      }
      match pass
      case Again =>
      case Lost => return None;
      case Done(account) => return Some(account);
    }
  }

  // ---------------------------------------------------------------------------- the client

  /** The next line the user types; the input channel yields empty lines once it is closed. */
  function NextLine(input: seq<Text>): Text {
    if input == [] then [] else input[0]
  }

  function Remaining(input: seq<Text>): seq<Text> {
    if input == [] then [] else input[1..]
  }

  /** The client fed with a whole stream and the lines typed. */
  function HearAll(c: Client, input: seq<Text>, stream: seq<byte>): ClientRun
    decreases |stream|, if c.Typing? then 1 else 0
  {
    match c
    case Finished(_) => (c, [], stream)
    case Typing(prompt, username) =>
      var line := NextLine(input);
      var (end, more, unread) := HearAll(Listening(Remember(prompt, username, line)), Remaining(input), stream);
      (end, [line] + more, unread)
    case Listening(username) =>
      var (r, rest) := Decode(stream);
      if r.Failed? then (c, [], rest) else HearAll(Hear(username, r.data), input, rest)
  }

  ghost predicate Heard(all: ClientRun, sent: seq<Text>, c: Client, input: seq<Text>, stream: seq<byte>) {
    var (end, more, unread) := HearAll(c, input, stream);
    all == (end, sent + more, unread)
  }

  lemma OneLine(all: ClientRun, sent: seq<Text>, prompt: Text, username: Text, input: seq<Text>, stream: seq<byte>)
    requires Heard(all, sent, Typing(prompt, username), input, stream)
    ensures var line := NextLine(input);
            Heard(all, sent + [line], Listening(Remember(prompt, username, line)), Remaining(input), stream)
            && |all.1| > |sent|
  {
    var line := NextLine(input);
    var more := HearAll(Listening(Remember(prompt, username, line)), Remaining(input), stream).1;
    assert sent + ([line] + more) == (sent + [line]) + more;
  }

  lemma OneFrame(all: ClientRun, sent: seq<Text>, username: Text, input: seq<Text>, stream: seq<byte>,
                 data: Text, rest: seq<byte>)
    requires Heard(all, sent, Listening(username), input, stream) && Decode(stream) == (Frame(data), rest)
    ensures Heard(all, sent, Hear(username, data), input, rest)
  {
  }

  lemma NothingMore(all: ClientRun, sent: seq<Text>, c: Client, input: seq<Text>, stream: seq<byte>)
    requires Heard(all, sent, c, input, stream)
    requires c.Finished? || (c.Listening? && Decode(stream).0.Failed?)
    ensures all == (c, sent, if c.Finished? then stream else Decode(stream).1)
  {
    assert sent + [] == sent;
  }

  /** Answer a prompt; a failed write ends the process. */
  method Reply(conn: Conn, line: Text, ghost before: seq<byte>, ghost sent: seq<Text>) returns (ok: bool)
    requires conn.outgoing == Output(conn.broken, before, sent)
    modifies conn`outgoing
    ensures ok == !conn.broken && conn.outgoing == Output(conn.broken, before, sent + [line])
  {
    EncodeOneMore(sent, line);
    ok := WriteMessage(conn, line);
  }

  /** drainInput: throw away the lines already waiting on the input channel. */
  method DrainInput(waiting: seq<Text>) returns (left: seq<Text>)
    ensures left == []
  {
    left := waiting;
    while left != []
      decreases |left|
    {
      left := left[1..];
    }
  }

  /** None when a read or a write failed, and with it the process. Lines typed ahead, still waiting when
      the handshake starts, answer nothing. */
  method RunAuthHandshake(conn: Conn, waiting: seq<Text>, input: seq<Text>) returns (r: Option<Credentials>)
    modifies conn`incoming, conn`outgoing
    ensures var (client, sent, unread) := HearAll(Listening([]), input, old(conn.Pending()));
            && r == (if client.Finished? && (conn.broken ==> sent == []) then Some(client.credentials) else None)
            && conn.outgoing == Output(conn.broken, old(conn.outgoing), sent)
            && (conn.broken || conn.Pending() == unread)
  {
    ghost var before, all := conn.outgoing, HearAll(Listening([]), input, conn.Pending());
    ghost var sent: seq<Text> := [];
    var left := DrainInput(waiting);
    var username, lines := [], left + input;
    assert lines == input;
    assert [] + all.1 == all.1;
    while true
      invariant conn.outgoing == Output(conn.broken, before, sent) && (conn.broken ==> sent == [])
      invariant Heard(all, sent, Listening(username), lines, conn.Pending())
      decreases |conn.Pending()|
    {
      ghost var stream := conn.Pending();
      var frame := Next(conn);
      if frame.None? {
        NothingMore(all, sent, Listening(username), lines, stream);
        return None;
      }
      ghost var rest := conn.Pending();
      OneFrame(all, sent, username, lines, stream, frame.value, rest);
      match Interactive(frame.value)
      case Final(token) =>
        NothingMore(all, sent, Finished(Credentials(username, token)), lines, rest);
        return Some(Credentials(username, token));
      case Asked(prompt) =>
        OneLine(all, sent, prompt, username, lines, rest);
        var line := NextLine(lines);
        lines := Remaining(lines);
        if !Includes(prompt, PASSWORD) && Includes(prompt, USERNAME) {
          username := line;
        }
        var ok := Reply(conn, line, before, sent);
        if !ok {
          return None;
        }
        sent := sent + [line];
      case _ =>
    }
  }

  /** The silent client fed with a whole stream. */
  function RetryAll(stored: Credentials, stream: seq<byte>): RetryRun
    decreases |stream|
  {
    var (r, rest) := Decode(stream);
    if r.Failed? then (Trying, [], rest)
    else
      match Silent(r.data)
      case Ignored => RetryAll(stored, rest)
      case Final(token) => (Restored(Credentials(stored.username, token)), [], rest)
      case Refused => (GaveUp, [], rest)
      case Asked(prompt) =>
        var (end, more, unread) := RetryAll(stored, rest);
        (end, [Answer(stored, prompt)] + more, unread)
  }

  ghost predicate Retried(all: RetryRun, sent: seq<Text>, stored: Credentials, stream: seq<byte>) {
    var (end, more, unread) := RetryAll(stored, stream);
    all == (end, sent + more, unread)
  }

  lemma OneAnswer(all: RetryRun, sent: seq<Text>, stored: Credentials, stream: seq<byte>, data: Text, rest: seq<byte>)
    requires Retried(all, sent, stored, stream) && Decode(stream) == (Frame(data), rest)
    ensures match Silent(data)
            case Ignored => Retried(all, sent, stored, rest)
            case Final(token) => all == (Restored(Credentials(stored.username, token)), sent, rest)
            case Refused => all == (GaveUp, sent, rest)
            case Asked(prompt) => Retried(all, sent + [Answer(stored, prompt)], stored, rest)
  {
    match Silent(data)
    case Asked(prompt) =>
      var line, more := Answer(stored, prompt), RetryAll(stored, rest).1;
      assert sent + ([line] + more) == (sent + [line]) + more;
    case _ =>
      assert sent + [] == sent;
  }

  lemma NoAnswer(all: RetryRun, sent: seq<Text>, stored: Credentials, stream: seq<byte>)
    requires Retried(all, sent, stored, stream) && Decode(stream).0.Failed?
    ensures all == (Trying, sent, Decode(stream).1)
  {
    assert sent + [] == sent;
  }

  /** None on an error: the connection was lost or the server refused. */
  method RunSilentAuth(conn: Conn, stored: Credentials) returns (r: Option<Credentials>)
    modifies conn`incoming, conn`outgoing
    ensures var (client, sent, unread) := RetryAll(stored, old(conn.Pending()));
            && r == (if client.Restored? then Some(client.credentials) else None)
            && conn.outgoing == Output(conn.broken, old(conn.outgoing), sent)
            && conn.Pending() == unread
  {
    ghost var before, all := conn.outgoing, RetryAll(stored, conn.Pending());
    ghost var sent: seq<Text> := [];
    assert [] + all.1 == all.1;
    while true
      invariant conn.outgoing == Output(conn.broken, before, sent)
      invariant Retried(all, sent, stored, conn.Pending())
      decreases |conn.Pending()|
    {
      ghost var stream := conn.Pending();
      var frame := Next(conn);
      if frame.None? {
        NoAnswer(all, sent, stored, stream);
        return None;
      }
      OneAnswer(all, sent, stored, stream, frame.value, conn.Pending());
      match Silent(frame.value)
      case Ignored =>
      case Final(token) => return Some(Credentials(stored.username, token));
      case Refused => return None;
      case Asked(prompt) =>
        var line := if Includes(prompt, REFRESH) then stored.refreshToken else REFRESH_COMMAND;
        sent := Say(conn, line, before, sent);
    }
  }

  // ------------------------------------------------------- the loops run the dialogue's two sides

  predicate ServesIn(d: Dialogue, a: Move) {
    a.ServerReads? && !d.server.Admitted? && d.up != []
  }

  predicate HearsIn(d: Dialogue, a: Move) {
    a.ClientReads? && d.client.Listening? && d.down != []
  }

  predicate TypesIn(d: Dialogue, a: Move) {
    a.UserTypes? && d.client.Typing?
  }

  lemma ServerAfter(d: Dialogue, a: Move)
    ensures Handshake.Do(d, a).server == if ServesIn(d, a) then Serve(d.server, d.up[0], a.verdict).0 else d.server
  {
  }

  lemma ClientAfter(d: Dialogue, a: Move)
    ensures Handshake.Do(d, a).client ==
            if HearsIn(d, a) then Hear(d.client.username, d.down[0])
            else if TypesIn(d, a) then Listening(Remember(d.client.prompt, d.client.username, a.line))
            else d.client
  {
  }

  /** The lines the server has read in a run of the dialogue, and the frames it has sent. */
  function LinesServed(moves: seq<Move>): seq<Text> {
    if moves == [] then [] else
      var front, a := moves[..|moves| - 1], moves[|moves| - 1];
      var d := Handshake.Run(front);
      if ServesIn(d, a) then LinesServed(front) + [d.up[0]] else LinesServed(front)
  }

  function FramesSent(moves: seq<Move>): seq<Text> {
    if moves == [] then [] else
      var front, a := moves[..|moves| - 1], moves[|moves| - 1];
      var d := Handshake.Run(front);
      if ServesIn(d, a) then FramesSent(front) + Serve(d.server, d.up[0], a.verdict).1 else FramesSent(front)
  }

  /** The frames the client has read, and the lines the user has typed. */
  function FramesHeard(moves: seq<Move>): seq<Text> {
    if moves == [] then [] else
      var front, a := moves[..|moves| - 1], moves[|moves| - 1];
      var d := Handshake.Run(front);
      if HearsIn(d, a) then FramesHeard(front) + [d.down[0]] else FramesHeard(front)
  }

  function LinesTyped(moves: seq<Move>): seq<Text> {
    if moves == [] then [] else
      var front, a := moves[..|moves| - 1], moves[|moves| - 1];
      if TypesIn(Handshake.Run(front), a) then LinesTyped(front) + [a.line] else LinesTyped(front)
  }

  /** The world the loop sees at its k-th read is the one the dialogue's server saw at its k-th. */
  predicate SameWorld(moves: seq<Move>, world: nat -> Verdict) {
    moves == [] ||
      var front, a := moves[..|moves| - 1], moves[|moves| - 1];
      SameWorld(front, world) && (ServesIn(Handshake.Run(front), a) ==> world(|LinesServed(front)|) == a.verdict)
  }

  predicate WithinCap(msgs: seq<Text>) {
    forall i | 0 <= i < |msgs| :: |msgs[i]| <= MAX_MESSAGE_SIZE
  }

  lemma StreamOfOneMore(msgs: seq<Text>, last: Text, rest: seq<byte>)
    requires WithinCap(msgs + [last])
    ensures WithinCap(msgs)
    ensures EncodeAll(msgs + [last]) + rest == EncodeAll(msgs) + (Encode(last) + rest)
    ensures Decode(Encode(last) + rest) == (Frame(last), rest)
  {
    assert forall i | 0 <= i < |msgs| :: (msgs + [last])[i] == msgs[i];
    assert (msgs + [last])[|msgs|] == last;
    EncodeOneMore(msgs, last);
    EncodedDecodes(last, rest, Encode(last) + rest);
  }

  /** What the server's loop has done with these lines, whatever follows them. */
  ghost predicate Served(lines: seq<Text>, world: nat -> Verdict, sent: seq<Text>, s: Server, rest: seq<byte>) {
    Left(ServeAll(AwaitCommand, EncodeAll(lines) + rest, world, 0), sent, s, rest, world, |lines|)
  }

  lemma ServedOneMore(lines: seq<Text>, world: nat -> Verdict, sent: seq<Text>, s: Server, rest: seq<byte>,
                      line: Text, s': Server, out: seq<Text>)
    requires Served(lines, world, sent, s, Encode(line) + rest) && WithinCap(lines + [line])
    requires !s.Admitted? && Serve(s, line, world(|lines|)) == (s', out)
    ensures Served(lines + [line], world, sent + out, s', rest)
  {
    StreamOfOneMore(lines, line, rest);
    OneRead(ServeAll(AwaitCommand, EncodeAll(lines) + (Encode(line) + rest), world, 0), sent,
            s, Encode(line) + rest, world, |lines|, line, rest, s', out);
  }

  /** Fed with the bytes of what the dialogue's server has read, whatever follows them, the server's
      loop has sent what that server has sent and is where it is. */
  lemma {:induction false} LoopServesTheDialogue(moves: seq<Move>, world: nat -> Verdict, rest: seq<byte>)
    requires SameWorld(moves, world) && WithinCap(LinesServed(moves))
    ensures Served(LinesServed(moves), world, FramesSent(moves), Handshake.Run(moves).server, rest)
  {
    if moves == [] {
      assert EncodeAll(LinesServed(moves)) + rest == rest;
      assert [] + ServeAll(AwaitCommand, rest, world, 0).1 == ServeAll(AwaitCommand, rest, world, 0).1;
    } else {
      var front, a := moves[..|moves| - 1], moves[|moves| - 1];
      var d := Handshake.Run(front);
      ServerAfter(d, a);
      if ServesIn(d, a) {
        var lines, line := LinesServed(front), d.up[0];
        StreamOfOneMore(lines, line, rest);
        LoopServesTheDialogue(front, world, Encode(line) + rest);
        var (s', out) := Serve(d.server, line, a.verdict);
        ServedOneMore(lines, world, FramesSent(front), d.server, rest, line, s', out);
      } else {
        LoopServesTheDialogue(front, world, rest);
      }
    }
  }

  /** What the client's loop has done with these frames and lines, whatever follows them. */
  ghost predicate HeardAll(frames: seq<Text>, typed: seq<Text>, c: Client, more: seq<Text>, rest: seq<byte>) {
    Heard(HearAll(Listening([]), typed + more, EncodeAll(frames) + rest), typed, c, more, rest)
  }

  lemma HeardOneMore(frames: seq<Text>, typed: seq<Text>, username: Text, more: seq<Text>, rest: seq<byte>, frame: Text)
    requires HeardAll(frames, typed, Listening(username), more, Encode(frame) + rest) && WithinCap(frames + [frame])
    ensures HeardAll(frames + [frame], typed, Hear(username, frame), more, rest)
  {
    StreamOfOneMore(frames, frame, rest);
    OneFrame(HearAll(Listening([]), typed + more, EncodeAll(frames) + (Encode(frame) + rest)), typed,
             username, more, Encode(frame) + rest, frame, rest);
  }

  lemma TypedOneMore(frames: seq<Text>, typed: seq<Text>, prompt: Text, username: Text, more: seq<Text>,
                     rest: seq<byte>, line: Text)
    requires HeardAll(frames, typed, Typing(prompt, username), [line] + more, rest)
    ensures HeardAll(frames, typed + [line], Listening(Remember(prompt, username, line)), more, rest)
  {
    assert typed + ([line] + more) == (typed + [line]) + more;
    OneLine(HearAll(Listening([]), (typed + [line]) + more, EncodeAll(frames) + rest), typed,
            prompt, username, [line] + more, rest);
    assert ([line] + more)[1..] == more;
  }

  /** Fed with the bytes of what the dialogue's client has read and the lines its user has typed,
      whatever follows them, the client's loop has sent those lines and is where that client is. */
  lemma {:induction false} LoopHearsTheDialogue(moves: seq<Move>, more: seq<Text>, rest: seq<byte>)
    requires WithinCap(FramesHeard(moves))
    ensures HeardAll(FramesHeard(moves), LinesTyped(moves), Handshake.Run(moves).client, more, rest)
  {
    if moves == [] {
      assert EncodeAll(FramesHeard(moves)) + rest == rest && LinesTyped(moves) + more == more;
      assert [] + HearAll(Listening([]), more, rest).1 == HearAll(Listening([]), more, rest).1;
    } else {
      var front, a := moves[..|moves| - 1], moves[|moves| - 1];
      var d := Handshake.Run(front);
      ClientAfter(d, a);
      if HearsIn(d, a) {
        StreamOfOneMore(FramesHeard(front), d.down[0], rest);
        LoopHearsTheDialogue(front, more, Encode(d.down[0]) + rest);
        HeardOneMore(FramesHeard(front), LinesTyped(front), d.client.username, more, rest, d.down[0]);
      } else if TypesIn(d, a) {
        LoopHearsTheDialogue(front, [a.line] + more, rest);
        TypedOneMore(FramesHeard(front), LinesTyped(front), d.client.prompt, d.client.username, more, rest, a.line);
      } else {
        LoopHearsTheDialogue(front, more, rest);
      }
    }
  }

  /** So with nothing following: RunAuthLoop, given what the dialogue's server read, sends what it sent
      and ends where it is, with nothing unread. */
  lemma LoopIsTheServer(moves: seq<Move>, world: nat -> Verdict)
    requires SameWorld(moves, world) && WithinCap(LinesServed(moves))
    ensures ServeAll(AwaitCommand, EncodeAll(LinesServed(moves)), world, 0)
            == (Handshake.Run(moves).server, FramesSent(moves), [])
  {
    LoopServesTheDialogue(moves, world, []);
    assert EncodeAll(LinesServed(moves)) + [] == EncodeAll(LinesServed(moves));
    NoMoreReads(ServeAll(AwaitCommand, EncodeAll(LinesServed(moves)), world, 0), FramesSent(moves),
                Handshake.Run(moves).server, [], world, |LinesServed(moves)|);
  }

  /** And RunAuthHandshake, given what the dialogue's client read and its user typed, sends what was
      typed and ends where that client is, unless the user is still to type. */
  lemma LoopIsTheClient(moves: seq<Move>)
    requires WithinCap(FramesHeard(moves)) && !Handshake.Run(moves).client.Typing?
    ensures HearAll(Listening([]), LinesTyped(moves), EncodeAll(FramesHeard(moves)))
            == (Handshake.Run(moves).client, LinesTyped(moves), [])
  {
    LoopHearsTheDialogue(moves, [], []);
    assert EncodeAll(FramesHeard(moves)) + [] == EncodeAll(FramesHeard(moves));
    assert LinesTyped(moves) + [] == LinesTyped(moves);
    NothingMore(HearAll(Listening([]), LinesTyped(moves), EncodeAll(FramesHeard(moves))), LinesTyped(moves),
                Handshake.Run(moves).client, [], []);
  }

  predicate RetriesIn(a: Attempt, turn: Turn) {
    turn.ClientTurn? && a.client.Trying? && a.down != []
  }

  /** The frames the silent client has read in an attempt, and the lines it has answered. */
  function FramesRead(stored: Credentials, turns: seq<Turn>): seq<Text> {
    if turns == [] then [] else
      var front, turn := turns[..|turns| - 1], turns[|turns| - 1];
      var a := Reconnects.Run(stored, front);
      if RetriesIn(a, turn) then FramesRead(stored, front) + [a.down[0]] else FramesRead(stored, front)
  }

  function LinesAnswered(stored: Credentials, turns: seq<Turn>): seq<Text> {
    if turns == [] then [] else
      var front, turn := turns[..|turns| - 1], turns[|turns| - 1];
      var a := Reconnects.Run(stored, front);
      if RetriesIn(a, turn) && Silent(a.down[0]).Asked?
      then LinesAnswered(stored, front) + [Answer(stored, Silent(a.down[0]).prompt)]
      else LinesAnswered(stored, front)
  }

  lemma RetryAfter(a: Attempt, stored: Credentials, turn: Turn)
    ensures Take(a, stored, turn).client ==
            if !RetriesIn(a, turn) then a.client
            else match Silent(a.down[0])
                 case Final(token) => Restored(Credentials(stored.username, token))
                 case Refused => GaveUp
                 case _ => Trying
  {
  }

  /** What the silent client's loop has done with these frames, whatever follows them. */
  ghost predicate RetriedAll(stored: Credentials, frames: seq<Text>, sent: seq<Text>, client: Retry, rest: seq<byte>) {
    var all := RetryAll(stored, EncodeAll(frames) + rest);
    if client.Trying? then Retried(all, sent, stored, rest) else all == (client, sent, rest)
  }

  lemma RetriedOneMore(stored: Credentials, frames: seq<Text>, sent: seq<Text>, rest: seq<byte>, frame: Text)
    requires RetriedAll(stored, frames, sent, Trying, Encode(frame) + rest) && WithinCap(frames + [frame])
    ensures match Silent(frame)
            case Ignored => RetriedAll(stored, frames + [frame], sent, Trying, rest)
            case Final(token) =>
              RetriedAll(stored, frames + [frame], sent, Restored(Credentials(stored.username, token)), rest)
            case Refused => RetriedAll(stored, frames + [frame], sent, GaveUp, rest)
            case Asked(prompt) => RetriedAll(stored, frames + [frame], sent + [Answer(stored, prompt)], Trying, rest)
  {
    StreamOfOneMore(frames, frame, rest);
    OneAnswer(RetryAll(stored, EncodeAll(frames) + (Encode(frame) + rest)), sent,
              stored, Encode(frame) + rest, frame, rest);
  }

  /** Fed with the bytes of what the silent client of an attempt has read, whatever follows them,
      RunSilentAuth has sent what that client has answered and is where that client is. */
  lemma {:induction false} LoopRetriesTheAttempt(stored: Credentials, turns: seq<Turn>, rest: seq<byte>)
    requires WithinCap(FramesRead(stored, turns))
    ensures RetriedAll(stored, FramesRead(stored, turns), LinesAnswered(stored, turns),
                       Reconnects.Run(stored, turns).client, rest)
  {
    if turns == [] {
      assert EncodeAll(FramesRead(stored, turns)) + rest == rest;
      assert [] + RetryAll(stored, rest).1 == RetryAll(stored, rest).1;
    } else {
      var front, turn := turns[..|turns| - 1], turns[|turns| - 1];
      var a := Reconnects.Run(stored, front);
      RetryAfter(a, stored, turn);
      if RetriesIn(a, turn) {
        StreamOfOneMore(FramesRead(stored, front), a.down[0], rest);
        LoopRetriesTheAttempt(stored, front, Encode(a.down[0]) + rest);
        RetriedOneMore(stored, FramesRead(stored, front), LinesAnswered(stored, front), rest, a.down[0]);
      } else {
        LoopRetriesTheAttempt(stored, front, rest);
      }
    }
  }
}
