/** What the server answers and whom it lets in, read off the lines it has read: a request is the line
    that begins it and the one or two that complete it, and each of its lines has one answer. */
module Requests {
  import opened Wrappers
  import opened Framing
  import opened Rooms
  import opened Prompts
  import opened Handshake
  import opened AuthLoops

  datatype Kind = Registration | SignIn | Renewal | Nothing

  /** What a line at the beginning of a request asks for. */
  function KindOf(line: Text): Kind {
    var command := TrimSpace(line);
    if command == REGISTER_COMMAND then Registration
    else if command == LOGIN_COMMAND then SignIn
    else if command == REFRESH_COMMAND then Renewal
    else Nothing
  }

  /** A line the server has read, what it would ask for at the beginning of a request, and the state of
      the world when it was read. */
  datatype Read = Read(line: Text, kind: Kind, world: Verdict)

  function Hearing(line: Text, world: Verdict): Read {
    Read(line, KindOf(line), world)
  }

  function Length(kind: Kind): nat {
    match kind
    case Registration => 3
    case SignIn => 3
    case Renewal => 2
    case Nothing => 1
  }

  /** The lines of a request so far are all of it: complete, or refused by the registration limiter. */
  predicate Over(request: seq<Read>)
    requires request != []
  {
    var kind := request[0].kind;
    |request| >= Length(kind) || (kind.Registration? && !request[0].world.allowed)
  }

  /** The request under way after these lines: none, or one that lacks some of its lines. */
  function Pending(lines: seq<Read>): seq<Read> {
    if lines == [] then [] else
      var request := LastRequest(lines);
      if Over(request) then [] else request
  }

  /** The request that the last line belongs to. */
  function LastRequest(lines: seq<Read>): (r: seq<Read>)
    requires lines != []
    ensures r != []
    decreases lines, 0
  {
    var n := |lines| - 1;
    Pending(lines[..n]) + [lines[n]]
  }

  /** Its answer: the notice that the cause of a refusal or the kind of the request calls for, and the
      next prompt or the last frame. */
  function Answer(request: seq<Read>): seq<Text>
    requires request != []
  {
    var kind, world := request[0].kind, request[|request| - 1].world;
    if kind.Nothing? then [INVALID]
    else if kind.Registration? && !request[0].world.allowed then [LIMITED, ENTER]
    else if |request| < Length(kind) then
      [if kind.Renewal? then ASK_TOKEN else if |request| == 1 then ASK_USERNAME else ASK_PASSWORD]
    else if world.reply.None? then [UNAVAILABLE, ENTER]
    else if kind.SignIn? && world.reply.value.username in world.present then [LOGGED_IN, ENTER]
    else [if kind.Registration? then REGISTERED else LOGIN_OK, FINAL + world.reply.value.token]
  }

  /** It lets the user in: complete, granted, and, if it is a login, for someone not present. */
  predicate Granted(request: seq<Read>)
    requires request != []
  {
    var kind, world := request[0].kind, request[|request| - 1].world;
    && !kind.Nothing? && (kind.Registration? ==> request[0].world.allowed)
    && |request| == Length(kind) && world.reply.Some?
    && (kind.SignIn? ==> world.reply.value.username !in world.present)
  }

  /** The account is the auth service's, the name the second line of a registration or login. */
  function Admission(request: seq<Read>): Server
    requires request != [] && Granted(request)
  {
    Admitted(request[|request| - 1].world.reply.value,
             if request[0].kind.Renewal? then None else Some(request[1].line))
  }

  /** The read the server is blocked on is the one that the pending request lacks. */
  predicate Awaits(s: Server, pending: seq<Read>) {
    match s
    case AwaitCommand => pending == []
    case AwaitUsername(command) => |pending| == 1 && Begun(pending[0], command)
    case AwaitPassword(command, name) => |pending| == 2 && Begun(pending[0], command) && pending[1].line == name
    case AwaitToken => |pending| == 1 && pending[0].kind.Renewal?
    case Admitted(_, _) => false
  }

  predicate Begun(read: Read, command: Command) {
    if command.Register? then read.kind.Registration? && read.world.allowed else read.kind.SignIn?
  }

  lemma ServeAnswers(s: Server, pending: seq<Read>, line: Text, world: Verdict)
    requires Awaits(s, pending)
    ensures var (s', sent) := Serve(s, line, world);
            var request := pending + [Hearing(line, world)];
            && sent == Answer(request)
            && if Granted(request) then s' == Admission(request)
               else Awaits(s', if Over(request) then [] else request)
  {
  }

  // ------------------------------------------------------------------ runs of the dialogue

  /** The lines the server has read in a run of the dialogue, each with the world at the time. */
  function LinesRead(moves: seq<Move>): seq<Read> {
    if moves == [] then [] else
      var front, a := moves[..|moves| - 1], moves[|moves| - 1];
      if ServesIn(Handshake.Run(front), a) then LinesRead(front) + [Hearing(Handshake.Run(front).up[0], a.verdict)]
      else LinesRead(front)
  }

  function Answers(lines: seq<Read>): seq<Text> {
    if lines == [] then [] else Answers(lines[..|lines| - 1]) + Answer(LastRequest(lines))
  }

  /** What these lines leave the server waiting for, or whom they have made it let in. */
  ghost predicate HasServed(s: Server, lines: seq<Read>) {
    if lines != [] && Granted(LastRequest(lines)) then s == Admission(LastRequest(lines))
    else Awaits(s, Pending(lines))
  }

  lemma OneMoreLine(lines: seq<Read>, read: Read, s': Server, sent: seq<Text>)
    requires var request := Pending(lines) + [read];
             && sent == Answer(request)
             && if Granted(request) then s' == Admission(request)
                else Awaits(s', if Over(request) then [] else request)
    ensures HasServed(s', lines + [read]) && Answers(lines + [read]) == Answers(lines) + sent
  {
    assert (lines + [read])[..|lines|] == lines;
    assert LastRequest(lines + [read]) == Pending(lines) + [read];
  }

  /** In every run, the server has sent the answers to the requests it has read, in order; it is blocked
      on the line that the pending request lacks, or has let in the user of the last request, which is
      so exactly when that request is granted. */
  lemma {:induction false} EveryRequestIsAnswered(moves: seq<Move>)
    ensures var d, lines := Handshake.Run(moves), LinesRead(moves);
            HasServed(d.server, lines) && FramesSent(moves) == Answers(lines)
  {
    if moves != [] {
      var front, a := moves[..|moves| - 1], moves[|moves| - 1];
      var d := Handshake.Run(front);
      EveryRequestIsAnswered(front);
      ServerAfter(d, a);
      if ServesIn(d, a) {
        var (s', sent) := Serve(d.server, d.up[0], a.verdict);
        ServeAnswers(d.server, Pending(LinesRead(front)), d.up[0], a.verdict);
        OneMoreLine(LinesRead(front), Hearing(d.up[0], a.verdict), s', sent);
      }
    }
  }

  lemma {:induction false} PendingIsTheEnd(lines: seq<Read>)
    ensures |Pending(lines)| <= |lines| && Pending(lines) == lines[|lines| - |Pending(lines)|..]
    ensures |Pending(lines)| <= 2
  {
    if lines != [] {
      var n := |lines| - 1;
      PendingIsTheEnd(lines[..n]);
      var k := |lines[..n]| - |Pending(lines[..n])|;
      assert lines[..n][k..] + [lines[n]] == lines[k..];
    }
  }

  lemma LastRequestIsTheEnd(lines: seq<Read>)
    requires lines != []
    ensures |LastRequest(lines)| <= |lines| && LastRequest(lines) == lines[|lines| - |LastRequest(lines)|..]
  {
    var n := |lines| - 1;
    PendingIsTheEnd(lines[..n]);
    var k := |lines[..n]| - |Pending(lines[..n])|;
    assert lines[..n][k..] + [lines[n]] == lines[k..];
  }

  /** The request began three lines before the admission, with a registration or a login; the line that
      began it decides the notice before the last frame, and the name typed is the line after it. */
  predicate BegunByItsFirstLine(account: Account, typed: Option<Text>, lines: seq<Read>, sent: seq<Text>) {
    && |lines| >= 3 && |sent| >= 2
    && (lines[|lines| - 3].kind.Registration? || lines[|lines| - 3].kind.SignIn?)
    && sent[|sent| - 2] == (if lines[|lines| - 3].kind.Registration? then REGISTERED else LOGIN_OK)
    && sent[|sent| - 1] == FINAL + account.token
    && typed == Some(lines[|lines| - 2].line)
  }

  /** That is how everyone is let in who was asked for a name. */
  lemma TheFirstLineDecides(moves: seq<Move>)
    requires Handshake.Run(moves).server.Admitted? && Handshake.Run(moves).server.typed.Some?
    ensures var server := Handshake.Run(moves).server;
            BegunByItsFirstLine(server.account, server.typed, LinesRead(moves), FramesSent(moves))
  {
    EveryRequestIsAnswered(moves);
    EndsWithTheRequest(Handshake.Run(moves).server, LinesRead(moves), FramesSent(moves));
  }

  lemma EndsWithTheRequest(server: Server, lines: seq<Read>, sent: seq<Text>)
    requires HasServed(server, lines) && server.Admitted? && server.typed.Some? && sent == Answers(lines)
    ensures BegunByItsFirstLine(server.account, server.typed, lines, sent)
  {
    var request := LastRequest(lines);
    AdmittedWithAName(server, request);
    LastRequestIsTheEnd(lines);
    AnswersEnd(lines);
    TheEnd(lines, request);
    TheEnd(sent, Answer(request));
  }

  lemma TheEnd<T>(all: seq<T>, end: seq<T>)
    requires |end| <= |all| && all[|all| - |end|..] == end
    ensures forall i | 0 <= i < |end| :: all[|all| - |end| + i] == end[i]
  {
    forall i | 0 <= i < |end| ensures all[|all| - |end| + i] == end[i] {
      assert all[|all| - |end|..][i] == end[i];
    }
  }

  lemma AdmittedWithAName(server: Server, request: seq<Read>)
    requires request != [] && Granted(request) && server == Admission(request) && server.typed.Some?
    ensures |request| == 3 && server.typed == Some(request[1].line)
    ensures request[0].kind.Registration? || request[0].kind.SignIn?
    ensures Answer(request) == [if request[0].kind.Registration? then REGISTERED else LOGIN_OK,
                                FINAL + server.account.token]
  {
  }

  lemma AnswersEnd(lines: seq<Read>)
    requires lines != []
    ensures var sent, last := Answers(lines), Answer(LastRequest(lines));
            |last| <= |sent| && sent[|sent| - |last|..] == last
  {
  }

  /** A registration that the auth service grants is let in whoever is present; a login it grants is let
      in exactly when its user is not. */
  lemma OnlyLoginsAskWhoIsPresent(moves: seq<Move>, v: Verdict)
    requires ServesIn(Handshake.Run(moves), ServerReads(v)) && v.reply.Some?
    requires |Pending(LinesRead(moves))| == 2
    ensures var lines := LinesRead(moves);
            |lines| >= 2 &&
            (Handshake.Run(moves + [ServerReads(v)]).server.Admitted? <==>
             lines[|lines| - 2].kind.Registration? || v.reply.value.username !in v.present)
  {
    var lines, d := LinesRead(moves), Handshake.Run(moves);
    EveryRequestIsAnswered(moves);
    PendingIsTheEnd(lines);
    assert (moves + [ServerReads(v)])[..|moves|] == moves;
    ServerAfter(d, ServerReads(v));
    ServeAnswers(d.server, Pending(lines), d.up[0], v);
  }

  // ------------------------------------------------------------------ the loop itself

  /** The answers to the frames of a stream, from a pending request on, until one lets the user in. */
  function Replies(pending: seq<Read>, frames: seq<Text>, world: nat -> Verdict, k: nat)
    : (seq<Text>, Option<Account>)
    decreases |frames|
  {
    if frames == [] then ([], None)
    else
      var request := pending + [Hearing(frames[0], world(k))];
      if Granted(request) then (Answer(request), Some(Admission(request).account))
      else
        var (more, end) := Replies(if Over(request) then [] else request, frames[1..], world, k + 1);
        (Answer(request) + more, end)
  }

  /** RunAuthLoop, whatever the stream and wherever it is cut: the answers to the requests in the frames
      it decodes, and the account that the first granted one brings. */
  lemma LoopAnswersEveryRequest(stream: seq<byte>, world: nat -> Verdict)
    ensures var (end, sent, _) := ServeAll(AwaitCommand, stream, world, 0);
            (sent, if end.Admitted? then Some(end.account) else None)
            == Replies([], DecodeAll(stream).0, world, 0)
  {
    LoopAnswersFrom(AwaitCommand, [], stream, world, 0);
  }

  lemma {:induction false} LoopAnswersFrom(s: Server, pending: seq<Read>, stream: seq<byte>,
                                           world: nat -> Verdict, k: nat)
    requires Awaits(s, pending)
    ensures var (end, sent, _) := ServeAll(s, stream, world, k);
            (sent, if end.Admitted? then Some(end.account) else None)
            == Replies(pending, DecodeAll(stream).0, world, k)
    decreases |stream|
  {
    var (r, rest) := Decode(stream);
    if r.Frame? {
      var request := pending + [Hearing(r.data, world(k))];
      ServeAnswers(s, pending, r.data, world(k));
      var frames := DecodeAll(rest).0;
      assert DecodeAll(stream).0 == [r.data] + frames && ([r.data] + frames)[1..] == frames;
      var (s', sent) := Serve(s, r.data, world(k));
      if Granted(request) {
        assert ServeAll(s', rest, world, k + 1).1 == [];
        assert sent + [] == sent;
      } else {
        LoopAnswersFrom(s', if Over(request) then [] else request, rest, world, k + 1);
      }
    }
  }
}
