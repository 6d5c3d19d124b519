/**
 What a 200 leaves of the tunnel's bytes.
 */
module TunnelBytes {
  import opened Wrappers
  import opened Text
  import opened HttpUtils
  import opened TcpStream
  import opened AuthSession
  import opened AuthTunnel
  import opened HeaderReading
  import opened HandshakeRuns
  import opened StreamSync
  import opened ProxyWire

  // ---- one response --------------------------------------------------------

  /** A head that is not read on its own: if the reader stops at all, it has taken
      some of the bytes behind the head, and the status is the head's all the same. */
  lemma ReadsBeyondHead(segments: seq<string>, resets: bool, head: string, tunnel: string)
    requires HeaderBlock(head) && Flat(segments) == head + tunnel && !HeadRead(segments, 0, |head|)
    ensures var (reply, left) := ReplyFrom(segments, resets);
            reply.Ok? ==> |Flat(left)| < |tunnel| && ParseStatus(head) == Some(reply.value.status)
  {
    hide HeadersFrom, FindProxyAuthenticate, ParseContentLength, ParseStatus, HeaderBlock, HeadRead, DropBytes, Flat;
    OverreadHead(segments, resets, head, tunnel);
    var (got, after) := HeadersFrom("", segments, resets);
    var reply := ReplyFrom(segments, resets).0;
    if reply.Ok? {
      var left := DropBytes(after, ParseContentLength(got.value));
      assert reply.value.status == ParseStatus(got.value).value;
      assert ReplyFrom(segments, resets).1 == left;
    }
  }

  lemma OverreadHead(segments: seq<string>, resets: bool, head: string, tunnel: string)
    requires HeaderBlock(head) && Flat(segments) == head + tunnel && !HeadRead(segments, 0, |head|)
    ensures var (got, after) := HeadersFrom("", segments, resets);
            got.Ok? ==> |Flat(after)| < |tunnel| && ParseStatus(got.value) == ParseStatus(head)
  {
    assert "" + Flat(segments) == head + tunnel;
    HeaderBlockLength(head);
    ReadBlockFrom("", segments, resets, head, tunnel);
    var (got, after) := HeadersFrom("", segments, resets);
    assert got.Ok? ==> got.value + Flat(after) == head + tunnel && |head| < |got.value|;
    if got.Ok? {
      hide *;
      SameStatus(got.value, Flat(after), head, tunnel);
    }
  }

  lemma SameStatus(got: string, after: string, head: string, tunnel: string)
    requires HeaderBlock(head) && got + after == head + tunnel && |head| <= |got|
    ensures ParseStatus(got) == ParseStatus(head)
  {
    assert (got + after)[..|head|] == got[..|head|] && (head + tunnel)[..|head|] == head;
    assert got == head + got[|head|..];
    FirstLineOfBlock(head, got[|head|..]);
    hide Lines, Words, ParseUnsigned;
  }

  /** One response read: the bytes behind a head survive it if and only if the
      head is read on its own and declares no length. A 200 to CONNECT ends with
      its head, and section 9.3.6 of RFC 9110 has the client ignore a
      Content-Length in it. */
  lemma TunnelKeptExactlyWhen(segments: seq<string>, resets: bool, head: string, tunnel: string)
    requires HeaderBlock(head) && ParseStatus(head).Some? && Flat(segments) == head + tunnel
    ensures var (reply, left) := ReplyFrom(segments, resets);
            (reply.Ok? && Flat(left) == tunnel
             <==> HeadRead(segments, 0, |head|) && ParseContentLength(head) == 0)
  {
    hide HeaderBlock, ParseStatus, FindProxyAuthenticate, ParseContentLength, ReplyFrom, HeadRead, Moved;
    if HeadRead(segments, 0, |head|) {
      TakesDeclaredLength(segments, resets, head, tunnel);
      assert tunnel[0..] == tunnel;
    } else {
      ReadsBeyondHead(segments, resets, head, tunnel);
    }
  }

  // ---- whole runs ----------------------------------------------------------

  predicate WelcomeHead(head: string) {
    HeaderBlock(head) && ParseStatus(head) == Some(200)
  }

  /** What a 200 leaves of the tunnel. Read on its own: everything but the declared
      number of bytes, and no connection at all when there are fewer. Otherwise
      some bytes are lost in any case. */
  ghost predicate TakenFromTunnel(
    result: Result<(), TunnelError>, left: seq<string>, head: string, tunnel: string, alone: bool)
  {
    var declared := ParseContentLength(head);
    if alone then
      && (result.Ok? <==> declared <= |tunnel|)
      && (result.Ok? ==> Flat(left) == tunnel[declared..])
    else
      result.Ok? ==> |Flat(left)| < |tunnel|
  }

  /** How a run ends that still has these challenges and then the 200 before it. */
  ghost predicate EndsInTunnel(
    result: Result<(), TunnelError>, left: seq<string>, net: Net, messages: seq<Message>, head: string, tunnel: string)
  {
    if net.writesLeft <= |messages| then result.Err?
    else TakenFromTunnel(result, left, head, tunnel, HeadRead(net.incoming, |Encode(messages)|, |head|))
  }

  lemma {:induction false} ExchangeWelcome(net: Net, target: string, authorization: Option<string>, head: string, tunnel: string)
    requires WelcomeHead(head) && Carries(net.incoming, [], head + tunnel)
    ensures var x := Exchange(net, target, authorization);
            && (x.reply.Ok? ==>
                  x.reply.value.status == 200 && EndsInTunnel(Ok(()), x.net.incoming, net, [], head, tunnel))
            && (x.reply.Err? ==> EndsInTunnel(Err(x.reply.error), x.net.incoming, net, [], head, tunnel))
  {
    hide HeaderBlock, ParseStatus, FindProxyAuthenticate, ParseContentLength, ReplyFrom, HeadRead, Moved;
    hide ConnectRequest, Flat, HeadsRead;
    assert |Encode([])| == 0 && Encode([]) + (head + tunnel) == head + tunnel;
    if HeadRead(net.incoming, 0, |head|) {
      TakesDeclaredLength(net.incoming, net.resets, head, tunnel);
    } else {
      ReadsBeyondHead(net.incoming, net.resets, head, tunnel);
    }
  }

  lemma NoWrite(
    net: Net, target: string, authorization: Option<string>, messages: seq<Message>, head: string, tunnel: string)
    requires net.writesLeft == 0
    ensures var x := Exchange(net, target, authorization);
            x.reply == Err(Io(BrokenPipe)) && EndsInTunnel(Err(x.reply.error), x.net.incoming, net, messages, head, tunnel)
  {
  }

  /** A challenge in front of a 200 is consumed, and the rest moves up. */
  lemma {:induction false} ExchangeBeforeWelcome(
    net: Net, target: string, authorization: Option<string>, messages: seq<Message>, head: string, tunnel: string)
    requires AllWellFramed(messages) && messages != [] && net.writesLeft > 0 && WelcomeHead(head)
    requires Carries(net.incoming, messages, head + tunnel)
    ensures var x := Exchange(net, target, authorization);
            && x.reply == Ok(ReplyOf(messages[0]))
            && AllWellFramed(messages[1..])
            && RepliesOf(messages) == [ReplyOf(messages[0])] + RepliesOf(messages[1..])
            && Carries(x.net.incoming, messages[1..], head + tunnel)
            && forall result, left :: EndsInTunnel(result, left, x.net, messages[1..], head, tunnel) ==>
                 EndsInTunnel(result, left, net, messages, head, tunnel)
  {
    hide ConnectRequest, ReplyFrom, Carries, WellFramed, ReplyOf, HeadRead, Moved, HeaderBlock, TakenFromTunnel, ParseStatus;
    hide HasTerminator;
    HeaderBlockLength(head);
    forall m | m in messages[1..]
      ensures WellFramed(m)
    {
      assert m in messages;
    }
    NextInStep(net.incoming, net.resets, messages, head + tunnel);
    var m, x := messages[0], Exchange(net, target, authorization);
    HeadMoves(net.incoming, x.net.incoming, |m.head| + |m.body|, |Encode(messages[1..])|, |head|);
  }

  lemma {:induction false} LoopWelcome<S>(
    behaviour: Behaviour<S>, state: S, net: Net, target: string, reply: Reply, round: nat,
    messages: seq<Message>, head: string, tunnel: string)
    requires AllWellFramed(messages) && WelcomeHead(head) && round + |messages| < MAX_ROUNDS
    requires Challenged(behaviour, state, [reply] + RepliesOf(messages), |messages| + 1)
    requires Carries(net.incoming, messages, head + tunnel)
    ensures var run := Rounds(behaviour, state, net, target, reply, round);
            EndsInTunnel(run.result, run.net.incoming, net, messages, head, tunnel)
    decreases |messages|
  {
    hide ConnectRequest, Exchange, Carries, WellFramed, ReplyOf, WelcomeHead, Challenged, RepliesOf, EndsInTunnel;
    ChallengedStep(behaviour, state, reply, RepliesOf(messages), |messages|);
    var (next, outcome) := behaviour(state, reply.challenge);
    var x := Exchange(net, target, Some(outcome.header));
    if net.writesLeft == 0 {
      NoWrite(net, target, Some(outcome.header), messages, head, tunnel);
    } else if messages == [] {
      ExchangeWelcome(net, target, Some(outcome.header), head, tunnel);
    } else {
      ExchangeBeforeWelcome(net, target, Some(outcome.header), messages, head, tunnel);
      ChallengedStep(behaviour, next, ReplyOf(messages[0]), RepliesOf(messages[1..]), |messages| - 1);
      LoopWelcome(behaviour, next, x.net, target, x.reply.value, round + 1, messages[1..], head, tunnel);
    }
  }

  /** The whole handshake, behind any number of 407s that the session answers, up
      to four: the tunnel comes through whole if and only if there was a write for
      each request, the head of the 200 is read on its own, and it declares no
      length. */
  lemma HandshakeKeepsTunnelExactlyWhen<S>(
    behaviour: Behaviour<S>, state: S, net: Net, target: string, messages: seq<Message>, head: string, tunnel: string)
    requires AllWellFramed(messages) && WelcomeHead(head) && |messages| <= MAX_ROUNDS
    requires Challenged(behaviour, state, RepliesOf(messages), |messages|)
    requires Carries(net.incoming, messages, head + tunnel)
    ensures var run, alone := Handshake(behaviour, state, net, target), HeadRead(net.incoming, |Encode(messages)|, |head|);
            && EndsInTunnel(run.result, run.net.incoming, net, messages, head, tunnel)
            && (run.result.Ok? && Flat(run.net.incoming) == tunnel
                <==> net.writesLeft > |messages| && alone && ParseContentLength(head) == 0)
  {
    RunWelcome(behaviour, state, net, target, messages, head, tunnel);
    hide Handshake, Carries, Challenged, AllWellFramed, RepliesOf, Flat, WelcomeHead, ParseContentLength, HeadRead;
    assert tunnel[0..] == tunnel;
  }

  lemma RunWelcome<S>(
    behaviour: Behaviour<S>, state: S, net: Net, target: string, messages: seq<Message>, head: string, tunnel: string)
    requires AllWellFramed(messages) && WelcomeHead(head) && |messages| <= MAX_ROUNDS
    requires Challenged(behaviour, state, RepliesOf(messages), |messages|)
    requires Carries(net.incoming, messages, head + tunnel)
    ensures var run := Handshake(behaviour, state, net, target);
            EndsInTunnel(run.result, run.net.incoming, net, messages, head, tunnel)
  {
    hide ConnectRequest, Exchange, Rounds, Carries, WellFramed, ReplyOf, WelcomeHead, Challenged, RepliesOf, EndsInTunnel;
    var x := Exchange(net, target, None);
    if net.writesLeft == 0 {
      NoWrite(net, target, None, messages, head, tunnel);
    } else if messages == [] {
      ExchangeWelcome(net, target, None, head, tunnel);
    } else {
      ExchangeBeforeWelcome(net, target, None, messages, head, tunnel);
      ChallengedStep(behaviour, state, ReplyOf(messages[0]), RepliesOf(messages[1..]), |messages| - 1);
      LoopWelcome(behaviour, state, x.net, target, x.reply.value, 0, messages[1..], head, tunnel);
    }
  }

  /** A witness for every length: a run whose 200 declares `n` bytes succeeds and
      has lost the first `n` bytes of the tunnel. */
  lemma DeclaredLengthIsLost<S>(
    behaviour: Behaviour<S>, state: S, net: Net, target: string, messages: seq<Message>, tunnel: string,
    n: nat, version: string, reason: string, name: string)
    requires 0 < n <= |tunnel| && n < USIZE_LIMIT
    requires IsWord(version) && Clean(version) && Clean(reason)
    requires !IsContentLengthLine(StatusLine(version, Decimal(200), reason))
    requires IsToken(name) && EqIgnoreCase(name, "content-length")
    requires AllWellFramed(messages) && |messages| <= MAX_ROUNDS
    requires Challenged(behaviour, state, RepliesOf(messages), |messages|)
    requires Carries(net.incoming, messages, WelcomeDeclaring(n, version, reason, name) + tunnel)
    requires HeadRead(net.incoming, |Encode(messages)|, |WelcomeDeclaring(n, version, reason, name)|)
    requires net.writesLeft > |messages|
    ensures var run := Handshake(behaviour, state, net, target);
            run.result.Ok? && Flat(run.net.incoming) == tunnel[n..] != tunnel
  {
    var head := WelcomeDeclaring(n, version, reason, name);
    WelcomeDeclares(n, version, reason, name);
    hide Handshake, Carries, Challenged, AllWellFramed, RepliesOf, Flat, WelcomeHead, ParseContentLength, HeadRead;
    hide WelcomeDeclaring, IsWord, StatusLine, EqIgnoreCase, IsContentLengthLine, TokenChar, Decimal;
    HandshakeKeepsTunnelExactlyWhen(behaviour, state, net, target, messages, head, tunnel);
  }

  /** The head of a 200 that declares a length. */
  function WelcomeDeclaring(n: nat, version: string, reason: string, name: string): string {
    DeclaringHead(n, StatusLine(version, Decimal(200), reason), name)
  }

  lemma WelcomeDeclares(n: nat, version: string, reason: string, name: string)
    requires n < USIZE_LIMIT
    requires IsWord(version) && Clean(version) && Clean(reason)
    requires !IsContentLengthLine(StatusLine(version, Decimal(200), reason))
    requires IsToken(name) && EqIgnoreCase(name, "content-length")
    ensures WelcomeHead(WelcomeDeclaring(n, version, reason, name))
    ensures ParseContentLength(WelcomeDeclaring(n, version, reason, name)) == n
  {
    hide IsWord, StatusLine, EqIgnoreCase, IsContentLengthLine, TokenChar, Decimal, HeaderBlock, ParseContentLength;
    hide Block, FieldLine, ParseStatus;
    var status, field := StatusLine(version, Decimal(200), reason), FieldLine(Field(name, Decimal(n)));
    ParsePrintedStatus(version, 200, reason, [field], "");
    assert [status] + [field] == [status, field];
    assert Block([status, field]) + "" == Block([status, field]);
    DeclaredLength(n, status, name);
  }

  /** A head of a status line and a Content-Length field. */
  function DeclaringHead(n: nat, status: string, name: string): string {
    Block([status, FieldLine(Field(name, Decimal(n)))])
  }

  lemma DeclaredLength(n: nat, status: string, name: string)
    requires n < USIZE_LIMIT && BlockLine(status) && !IsContentLengthLine(status)
    requires IsToken(name) && EqIgnoreCase(name, "content-length")
    ensures HeaderBlock(DeclaringHead(n, status, name))
    ensures ParseContentLength(DeclaringHead(n, status, name)) == n
  {
    hide HeaderBlock, ParseContentLength, Decimal, IsContentLengthLine, TokenChar, EqIgnoreCase, FieldLine, Block;
    var field := Field(name, Decimal(n));
    DecimalText(n);
    FieldLineIsBlockLine(field);
    assert [status] + [FieldLine(field)] + [] == [status, FieldLine(field)];
    ContentLengthOfPrinted([status], name, n, []);
    BlockIsHeaderBlock([status, FieldLine(field)]);
  }
}
