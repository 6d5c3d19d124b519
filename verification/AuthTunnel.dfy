/**
 The authenticated CONNECT handshake with an upstream proxy: the chunked header
 reader, the response reader, and the bounded challenge-response loop, each as
 the imperative procedure and as the function it is proved to compute.
 */
module AuthTunnel {
  import opened Wrappers
  import opened Text
  import opened HttpUtils
  import opened TcpStream
  import opened AuthSession

  const MAX_HEADER_BYTES: nat := 64 * 1024
  const MAX_ROUNDS: nat := 4

  datatype TunnelError =
    | ConnectFailed
    | Io(io: IoError)
    | ClosedBeforeHeaders
    | HeadersTooLarge
    | NoStatus
    | StepError(reason: string)
    | NoToken(round: nat, status: nat)
    | UnexpectedStatus(status: nat, round: nat)
    | Exhausted(status: nat)

  datatype Reply = Reply(status: nat, challenge: Option<string>)

  /** One entry of a run's trace: a request written in full, or a response read
      in full. */
  datatype Event = Sent(request: string) | Received(reply: Reply)

  // ---- reading the head of a message ---------------------------------------

  /** The reader's result and the segments it leaves, having `buf` so far. */
  function HeadersFrom(buf: string, segments: seq<string>, resets: bool)
    : (Result<string, TunnelError>, seq<string>)
    decreases |segments|
  {
    if segments == [] then
      (Err(if resets then Io(ConnectionReset) else ClosedBeforeHeaders), [])
    else
      var grown := buf + segments[0];
      if HasTerminator(grown) then (Ok(grown), segments[1..])
      else if |grown| > MAX_HEADER_BYTES then (Err(HeadersTooLarge), segments[1..])
      else HeadersFrom(grown, segments[1..], resets)
  }

  method ReadHttpHeaders(stream: Connection) returns (r: Result<string, TunnelError>)
    requires stream.Valid()
    modifies stream`incoming
    ensures stream.Valid()
    ensures (r, stream.incoming) == HeadersFrom("", old(stream.incoming), stream.resets)
    ensures r.Ok? ==> |r.value| <= MAX_HEADER_BYTES + CHUNK
  {
    var buf := "";
    while true
      invariant stream.Valid() && |buf| <= MAX_HEADER_BYTES
      invariant HeadersFrom("", old(stream.incoming), stream.resets)
             == HeadersFrom(buf, stream.incoming, stream.resets)
      decreases |stream.incoming|
    {
      assert stream.incoming != [] ==> stream.incoming[0] in stream.incoming;
      var chunk := stream.Read();
      if chunk.Err? {
        return Err(Io(chunk.error));
      }
      if chunk.value == "" {
        return Err(ClosedBeforeHeaders);
      }
      buf := buf + chunk.value;
      if HasTerminator(buf) {
        return Ok(buf);
      }
      if |buf| > MAX_HEADER_BYTES {
        return Err(HeadersTooLarge);
      }
    }
  }

  // ---- reading a response --------------------------------------------------

  /** The challenge: the value of the first Proxy-Authenticate line. */
  function FindProxyAuthenticate(headers: string): Option<string> {
    var lines := Lines(headers);
    if lines == [] then None else ChallengeIn(lines[1..])
  }

  function ChallengeIn(lines: seq<string>): Option<string> {
    if lines == [] then None
    else
      match ChallengeOf(Trim(lines[0]))
      case Some(value) => Some(value)
      case None => ChallengeIn(lines[1..])
  }

  function ChallengeOf(trimmed: string): Option<string> {
    if |trimmed| > 20 && EqIgnoreCase(trimmed[..20], "Proxy-Authenticate: ") then
      Some(Trim(trimmed[20..]))
    else if StartsWith(trimmed, "Proxy-Authenticate:") || StartsWith(trimmed, "proxy-authenticate:") then
      Some(Trim(trimmed[19..]))
    else None
  }

  /** The second word of the first line, as a 16-bit number. */
  function ParseStatus(raw: string): Option<nat> {
    var lines := Lines(raw);
    if lines == [] || |Words(lines[0])| < 2 then None
    else ParseUnsigned(Words(lines[0])[1], 0x1_0000)
  }

  function ReplyFrom(segments: seq<string>, resets: bool): (Result<Reply, TunnelError>, seq<string>) {
    var (head, rest) := HeadersFrom("", segments, resets);
    if head.Err? then (Err(head.error), rest)
    else if ParseStatus(head.value).None? then (Err(NoStatus), rest)
    else
      var length := ParseContentLength(head.value);
      if length > |Flat(rest)| then
        (Err(Io(if resets then ConnectionReset else UnexpectedEof)), [])
      else
        (Ok(Reply(ParseStatus(head.value).value, FindProxyAuthenticate(head.value))),
         DropBytes(rest, length))
  }

  method ReadProxyResponse(stream: Connection) returns (r: Result<Reply, TunnelError>)
    requires stream.Valid()
    modifies stream`incoming
    ensures stream.Valid()
    ensures (r, stream.incoming) == ReplyFrom(old(stream.incoming), stream.resets)
  {
    var raw := ReadHttpHeaders(stream);
    if raw.Err? {
      return Err(raw.error);
    }
    var status := ParseStatus(raw.value);
    if status.None? {
      return Err(NoStatus);
    }
    var challenge := FindProxyAuthenticate(raw.value);
    var contentLength := ParseContentLength(raw.value);
    if contentLength > 0 {
      var body := stream.ReadExact(contentLength);
      if body.Err? {
        return Err(Io(body.error));
      }
    }
    return Ok(Reply(status.value, challenge));
  }

  // ---- sending a request ---------------------------------------------------

  function ConnectFields(target: string, authorization: Option<string>): seq<Field> {
    [Field("Host", target)]
    + match authorization case None => [] case Some(a) => [Field("Proxy-Authorization", a)]
  }

  function ConnectRequest(target: string, authorization: Option<string>): string {
    RequestBlock("CONNECT", target + " HTTP/1.1", ConnectFields(target, authorization))
  }

  lemma ConnectRequestText(target: string, authorization: Option<string>)
    ensures ConnectRequest(target, authorization)
         == "CONNECT " + target + " HTTP/1.1\r\nHost: " + target + "\r\n"
            + (match authorization case None => "" case Some(a) => "Proxy-Authorization: " + a + "\r\n")
            + "\r\n"
  {
    var first := "CONNECT" + " " + (target + " HTTP/1.1");
    var host := FieldLine(Field("Host", target));
    match authorization
    case None =>
      assert FieldLines(ConnectFields(target, None)) == [host];
      assert Block([host]) == host + CRLF + Block([]);
      assert Block([first] + [host]) == first + CRLF + Block([host]) by { assert ([first] + [host])[1..] == [host]; }
    case Some(a) =>
      var auth := FieldLine(Field("Proxy-Authorization", a));
      assert FieldLines(ConnectFields(target, authorization)) == [host, auth];
      assert Block([auth]) == auth + CRLF + Block([]);
      assert Block([host, auth]) == host + CRLF + Block([auth]) by { assert [host, auth][1..] == [auth]; }
      assert Block([first] + [host, auth]) == first + CRLF + Block([host, auth]) by {
        assert ([first] + [host, auth])[1..] == [host, auth];
      }
  }

  method SendConnect(stream: Connection, target: string, authorization: Option<string>)
    returns (r: Result<(), TunnelError>)
    requires stream.Valid()
    modifies stream`writesLeft, stream`written
    ensures stream.Valid()
    ensures old(stream.writesLeft) == 0 ==>
              r == Err(Io(BrokenPipe)) && stream.writesLeft == 0 && stream.written == old(stream.written)
    ensures old(stream.writesLeft) > 0 ==>
              && r == Ok(()) && stream.writesLeft == old(stream.writesLeft) - 1
              && stream.written == old(stream.written) + [ConnectRequest(target, authorization)]
  {
    var request := "CONNECT " + target + " HTTP/1.1\r\nHost: " + target + "\r\n";
    if authorization.Some? {
      request := request + ("Proxy-Authorization: " + authorization.value + "\r\n");
    }
    request := request + "\r\n";
    ConnectRequestText(target, authorization);
    assert request == ConnectRequest(target, authorization);
    var sent := stream.WriteAll(request);
    r := if sent.Err? then Err(Io(sent.error)) else Ok(());
  }

  /** The proxy that reads the request as this program reads headers gets back
      the target and exactly the given credentials, or none when none were given. */
  lemma ConnectRequestReadBack(target: string, authorization: Option<string>)
    requires Clean(target) && (authorization.Some? ==> Clean(authorization.value))
    ensures var request := ConnectRequest(target, authorization);
            && HeaderBlock(request)
            && FindHeaderValue(request, "Host") == Some(Trim(target))
            && FindHeaderValue(request, "Proxy-Authorization")
            == match authorization case None => None case Some(a) => Some(Trim(a))
  {
    hide FindHeaderValue, HeaderBlock, RequestBlock, Trim;
    var fields := ConnectFields(target, authorization);
    assert Lower('P') != Lower('H');
    RequestReadBack("CONNECT", target + " HTTP/1.1", fields, "Host");
    RequestReadBack("CONNECT", target + " HTTP/1.1", fields, "Proxy-Authorization");
    assert fields[0].name == "Host";
    assert authorization.Some? ==> fields[1..] == [Field("Proxy-Authorization", authorization.value)];
  }

  // ---- the handshake -------------------------------------------------------

  /** The outcome of one request and its response. */
  datatype Exchanged = Exchanged(reply: Result<Reply, TunnelError>, events: seq<Event>, net: Net)

  function Exchange(net: Net, target: string, authorization: Option<string>): Exchanged {
    if net.writesLeft == 0 then Exchanged(Err(Io(BrokenPipe)), [], net)
    else
      var sent := Sent(ConnectRequest(target, authorization));
      var (reply, rest) := ReplyFrom(net.incoming, net.resets);
      var after := Net(rest, net.resets, net.writesLeft - 1);
      Exchanged(reply, [sent] + (if reply.Ok? then [Received(reply.value)] else []), after)
  }

  /** A whole run: its result, its trace, and what it leaves behind. */
  datatype Run<S> = Run(result: Result<(), TunnelError>, events: seq<Event>, state: S, net: Net)

  /** One pass through the loop body: it stops the run or leaves a new response. */
  datatype Progress = Stop(result: Result<(), TunnelError>) | Continue(reply: Reply)

  datatype Advance<S> = Advance(progress: Progress, events: seq<Event>, state: S, net: Net)

  function Round<S>(behaviour: Behaviour<S>, state: S, net: Net, target: string, reply: Reply, round: nat)
    : Advance<S>
  {
    if reply.status != 407 then Advance(Stop(Err(UnexpectedStatus(reply.status, round))), [], state, net)
    else
      var (next, outcome) := behaviour(state, reply.challenge);
      match outcome
      case Failed(reason) => Advance(Stop(Err(StepError(reason))), [], next, net)
      case NoHeader => Advance(Stop(Err(NoToken(round, reply.status))), [], next, net)
      case Token(header) =>
        var x := Exchange(net, target, Some(header));
        var progress :=
          if x.reply.Err? then Stop(Err(x.reply.error))
          else if x.reply.value.status == 200 then Stop(Ok(()))
          else Continue(x.reply.value);
        Advance(progress, x.events, next, x.net)
  }

  /** The loop from `round` on, with the response just read. */
  function Rounds<S>(behaviour: Behaviour<S>, state: S, net: Net, target: string, reply: Reply, round: nat)
    : Run<S>
    requires round <= MAX_ROUNDS
    decreases MAX_ROUNDS - round
  {
    if round == MAX_ROUNDS then Run(Err(Exhausted(reply.status)), [], state, net)
    else
      var a := Round(behaviour, state, net, target, reply, round);
      match a.progress
      case Stop(result) => Run(result, a.events, a.state, a.net)
      case Continue(next) => Prepend(a.events, Rounds(behaviour, a.state, a.net, target, next, round + 1))
  }

  function Prepend<S>(events: seq<Event>, run: Run<S>): Run<S> {
    Run(run.result, events + run.events, run.state, run.net)
  }

  function Handshake<S>(behaviour: Behaviour<S>, state: S, net: Net, target: string): Run<S> {
    var x := Exchange(net, target, None);
    if x.reply.Err? then Run(Err(x.reply.error), x.events, state, x.net)
    else if x.reply.value.status == 200 then Run(Ok(()), x.events, state, x.net)
    else
      Prepend(x.events, Rounds(behaviour, state, x.net, target, x.reply.value, 0))
  }

  /** The requests of a trace, in order. */
  function Requests(events: seq<Event>): seq<string> {
    if events == [] then []
    else (if events[0].Sent? then [events[0].request] else []) + Requests(events[1..])
  }

  lemma RequestsConcat(a: seq<Event>, b: seq<Event>)
    ensures Requests(a + b) == Requests(a) + Requests(b)
  {
    if a == [] {
      assert a + b == b;
    } else {
      assert (a + b)[1..] == a[1..] + b;
      RequestsConcat(a[1..], b);
    }
  }

  /** One request and its response on a live connection. */
  method SendAndReceive(stream: Connection, target: string, authorization: Option<string>)
    returns (reply: Result<Reply, TunnelError>, ghost events: seq<Event>)
    requires stream.Valid()
    modifies stream
    ensures stream.Valid()
    ensures Exchange(old(stream.View()), target, authorization) == Exchanged(reply, events, stream.View())
    ensures stream.written == old(stream.written) + Requests(events)
  {
    hide ConnectRequest, ReplyFrom;
    events := [];
    var sent := SendConnect(stream, target, authorization);
    if sent.Err? {
      return Err(sent.error), events;
    }
    events := [Sent(ConnectRequest(target, authorization))];
    reply := ReadProxyResponse(stream);
    if reply.Ok? {
      RequestsConcat(events, [Received(reply.value)]);
      events := events + [Received(reply.value)];
    }
  }

  method AnswerChallenge<S>(upstream: Connection, target: string, session: Session<S>, reply: Reply, round: nat)
    returns (progress: Progress, ghost events: seq<Event>)
    requires upstream.Valid()
    modifies upstream, session
    ensures upstream.Valid()
    ensures Round(session.behaviour, old(session.state), old(upstream.View()), target, reply, round)
         == Advance(progress, events, session.state, upstream.View())
    ensures upstream.written == old(upstream.written) + Requests(events)
  {
    hide Exchange;
    events := [];
    if reply.status != 407 {
      return Stop(Err(UnexpectedStatus(reply.status, round))), events;
    }
    var outcome := session.Step(reply.challenge);
    match outcome {
      case Failed(reason) => return Stop(Err(StepError(reason))), events;
      case NoHeader => return Stop(Err(NoToken(round, reply.status))), events;
      case Token(header) =>
        var answer, more := SendAndReceive(upstream, target, Some(header));
        if answer.Err? {
          return Stop(Err(answer.error)), more;
        }
        if answer.value.status == 200 {
          return Stop(Ok(())), more;
        }
        return Continue(answer.value), more;
    }
  }

  /** The challenge-response loop, entered with the response just read. */
  method AnswerChallenges<S>(upstream: Connection, target: string, session: Session<S>, first: Reply)
    returns (r: Result<(), TunnelError>, ghost events: seq<Event>)
    requires upstream.Valid()
    modifies upstream, session
    ensures upstream.Valid()
    ensures Rounds(session.behaviour, old(session.state), old(upstream.View()), target, first, 0)
         == Run(r, events, session.state, upstream.View())
    ensures upstream.written == old(upstream.written) + Requests(events)
  {
    hide Round, Requests;
    events := [];
    RequestsConcat(events, events);
    assert events + events == events;
    var reply := first;
    ghost var run := Rounds(session.behaviour, session.state, upstream.View(), target, first, 0);
    for round := 0 to MAX_ROUNDS
      invariant upstream.Valid()
      invariant run == Prepend(events,
                  Rounds(session.behaviour, session.state, upstream.View(), target, reply, round))
      invariant upstream.written == old(upstream.written) + Requests(events)
    {
      var progress, more := AnswerChallenge(upstream, target, session, reply, round);
      RequestsConcat(events, more);
      if progress.Stop? {
        return progress.result, events + more;
      }
      reply := progress.reply;
      ghost var later := Rounds(session.behaviour, session.state, upstream.View(), target, reply, round + 1);
      assert events + (more + later.events) == events + more + later.events;
      events := events + more;
    }
    return Err(Exhausted(reply.status)), events;
  }

  /** `upstream` is the connection just dialled, or null when dialling failed. */
  method PerformAuthenticatedConnect<S>(upstream: Connection?, target: string, session: Session<S>)
    returns (r: Result<Connection, TunnelError>, ghost events: seq<Event>)
    requires upstream != null ==> upstream.Valid()
    modifies upstream, session
    ensures upstream == null ==>
              r == Err(ConnectFailed) && events == [] && session.state == old(session.state)
    ensures upstream != null ==>
              var run := Handshake(session.behaviour, old(session.state), old(upstream.View()), target);
              && upstream.Valid()
              && events == run.events && session.state == run.state && upstream.View() == run.net
              && upstream.written == old(upstream.written) + Requests(events)
              && r == (match run.result case Ok(_) => Ok(upstream) case Err(e) => Err(e))
  {
    hide Exchange, Rounds;
    events := [];
    if upstream == null {
      return Err(ConnectFailed), [];
    }
    var first, firstEvents := SendAndReceive(upstream, target, None);
    events := firstEvents;
    if first.Err? {
      return Err(first.error), events;
    }
    var reply := first.value;
    if reply.status == 200 {
      return Ok(upstream), events;
    }
    var answered, more := AnswerChallenges(upstream, target, session, reply);
    RequestsConcat(events, more);
    events := events + more;
    match answered {
      case Ok(_) => return Ok(upstream), events;
      case Err(e) => return Err(e), events;
    }
  }
}
