/**
 Where the handshake leaves the byte stream. The assumptions are the ones the
 program states or the HTTP standard gives: a read that returns the end of a
 response's head returns nothing after it; responses are framed by
 Content-Length (section 6.3 of RFC 9112).
 */
module StreamSync {
  import opened Wrappers
  import opened HttpUtils
  import opened TcpStream
  import opened AuthSession
  import opened AuthTunnel
  import opened HeaderReading
  import opened HandshakeRuns

  /** A response on the wire. */
  datatype Message = Message(head: string, body: string)

  predicate WellFramed(m: Message) {
    && HeaderBlock(m.head)
    && ParseStatus(m.head).Some?
    && ParseContentLength(m.head) == |m.body|
  }

  function ReplyOf(m: Message): Reply
    requires WellFramed(m)
  {
    Reply(ParseStatus(m.head).value, FindProxyAuthenticate(m.head))
  }

  function Encode(messages: seq<Message>): string {
    if messages == [] then ""
    else messages[0].head + messages[0].body + Encode(messages[1..])
  }

  predicate AllWellFramed(messages: seq<Message>) {
    forall m :: m in messages ==> WellFramed(m)
  }

  /** A read ends with the head that starts `offset` bytes into the stream; and
      none ends inside it past the size limit, which heads of up to one byte over
      the limit leave no room for. */
  ghost predicate HeadRead(segments: seq<string>, offset: nat, length: nat) {
    && CutAt(segments, offset + length)
    && NoCutBetween(segments, offset + MAX_HEADER_BYTES, offset + length)
  }

  /** `offset` bytes into the stream, the messages follow, their heads each read
      on their own. */
  ghost predicate HeadsRead(segments: seq<string>, offset: nat, messages: seq<Message>)
    decreases |messages|
  {
    messages == [] ||
    (&& HeadRead(segments, offset, |messages[0].head|)
     && HeadsRead(segments, offset + |messages[0].head| + |messages[0].body|, messages[1..]))
  }

  /** The stream carries exactly these messages and then the tunnel's bytes. */
  ghost predicate Carries(segments: seq<string>, messages: seq<Message>, tunnel: string) {
    Flat(segments) == Encode(messages) + tunnel && HeadsRead(segments, 0, messages)
  }

  /** `rest` is `segments` without its first `taken` bytes: read boundaries move
      along with the bytes. */
  ghost predicate Moved(segments: seq<string>, rest: seq<string>, taken: nat) {
    forall m: nat :: m > 0 ==> (CutAt(segments, taken + m) <==> CutAt(rest, m))
  }

  lemma HeadMoves(segments: seq<string>, rest: seq<string>, taken: nat, offset: nat, length: nat)
    requires Moved(segments, rest, taken) && offset + length > 0
    ensures HeadRead(segments, taken + offset, length) <==> HeadRead(rest, offset, length)
  {
    hide CutAt;
    assert CutAt(segments, taken + (offset + length)) <==> CutAt(rest, offset + length);
    forall n | offset + MAX_HEADER_BYTES < n < offset + length
      ensures CutAt(segments, taken + n) <==> CutAt(rest, n)
    {
    }
    if NoCutBetween(segments, taken + offset + MAX_HEADER_BYTES, taken + offset + length) {
      forall n | offset + MAX_HEADER_BYTES < n < offset + length
        ensures !CutAt(rest, n)
      {
        assert !CutAt(segments, taken + n);
      }
    }
    if NoCutBetween(rest, offset + MAX_HEADER_BYTES, offset + length) {
      forall n | taken + offset + MAX_HEADER_BYTES < n < taken + offset + length
        ensures !CutAt(segments, n)
      {
        assert CutAt(segments, taken + (n - taken)) <==> CutAt(rest, n - taken);
      }
    }
  }

  lemma {:induction false} HeadsMove(
    segments: seq<string>, rest: seq<string>, taken: nat, offset: nat, messages: seq<Message>)
    requires Moved(segments, rest, taken) && forall m :: m in messages ==> m.head != ""
    ensures HeadsRead(segments, taken + offset, messages) <==> HeadsRead(rest, offset, messages)
    decreases |messages|
  {
    hide CutAt, Moved, HeadRead;
    if messages != [] {
      var head, body := |messages[0].head|, |messages[0].body|;
      assert messages[0] in messages;
      HeadMoves(segments, rest, taken, offset, head);
      HeadsMove(segments, rest, taken, offset + head + body, messages[1..]);
    }
  }

  /** Heads of up to one byte over the limit need only a read that ends with them. */
  lemma SmallHeadsRead(segments: seq<string>, offset: nat, length: nat)
    requires length <= MAX_HEADER_BYTES + 1
    ensures HeadRead(segments, offset, length) <==> CutAt(segments, offset + length)
  {
  }

  // ---- one response --------------------------------------------------------

  /** A head that is read on its own: the response reader takes the head and the
      declared number of bytes after it, whatever they are, or fails when there
      are fewer. */
  lemma TakesDeclaredLength(segments: seq<string>, resets: bool, head: string, rest: string)
    requires HeaderBlock(head) && ParseStatus(head).Some?
    requires Flat(segments) == head + rest && HeadRead(segments, 0, |head|)
    ensures var (reply, left) := ReplyFrom(segments, resets);
            var declared := ParseContentLength(head);
            && (reply.Ok? <==> declared <= |rest|)
            && (reply.Ok? ==>
                  && reply.value == Reply(ParseStatus(head).value, FindProxyAuthenticate(head))
                  && Flat(left) == rest[declared..]
                  && Moved(segments, left, |head| + declared))
  {
    hide HeaderBlock, ParseStatus, FindProxyAuthenticate, ParseContentLength, HeadersFrom, CutAt, DropBytes, Flat;
    TakesHead(segments, resets, head, rest);
    var after, declared := HeadersFrom("", segments, resets).1, ParseContentLength(head);
    if declared <= |rest| {
      var left := DropBytes(after, declared);
      forall m: nat | m > 0
        ensures CutAt(segments, |head| + declared + m) <==> CutAt(left, m)
      {
        assert |head| + declared + m == |head| + (declared + m);
        assert CutAt(segments, |head| + (declared + m)) <==> CutAt(after, declared + m);
      }
    }
  }

  /** A head that is read on its own and gives no response: without a status nothing
      behind it is touched; with too few bytes behind it all of them are used up,
      and the error says how the stream ended. */
  lemma RefusesResponse(segments: seq<string>, resets: bool, head: string, rest: string)
    requires HeaderBlock(head) && Flat(segments) == head + rest && HeadRead(segments, 0, |head|)
    ensures var (reply, left) := ReplyFrom(segments, resets);
            && (ParseStatus(head).None? ==> reply == Err(NoStatus) && Flat(left) == rest)
            && (ParseStatus(head).Some? && ParseContentLength(head) > |rest| ==>
                  left == [] && reply == Err(Io(if resets then ConnectionReset else UnexpectedEof)))
  {
    hide HeaderBlock, ParseStatus, FindProxyAuthenticate, ParseContentLength, HeadersFrom, CutAt, DropBytes, Flat;
    TakesHead(segments, resets, head, rest);
  }

  lemma TakesHead(segments: seq<string>, resets: bool, head: string, rest: string)
    requires HeaderBlock(head) && Flat(segments) == head + rest && HeadRead(segments, 0, |head|)
    ensures var (got, after) := HeadersFrom("", segments, resets);
            got == Ok(head) && Flat(after) == rest && Moved(segments, after, |head|)
  {
    hide HeaderBlock, HeadersFrom, CutAt, Flat;
    HeaderBlockLength(head);
    assert "" + Flat(segments) == head + rest;
    ReadBlockFrom("", segments, resets, head, rest);
    BlockReadExactly(segments, resets, head, rest);
  }

  /** Each response read consumes exactly one message: its head and its body. */
  lemma ConsumesOneMessage(segments: seq<string>, resets: bool, m: Message, rest: string)
    requires WellFramed(m) && Flat(segments) == m.head + m.body + rest && HeadRead(segments, 0, |m.head|)
    ensures var (reply, left) := ReplyFrom(segments, resets);
            && reply == Ok(ReplyOf(m)) && Flat(left) == rest
            && Moved(segments, left, |m.head| + |m.body|)
  {
    hide HeaderBlock, ParseStatus, FindProxyAuthenticate, ParseContentLength, ReplyFrom, HeadRead, Moved;
    assert m.head + m.body + rest == m.head + (m.body + rest);
    assert (m.body + rest)[|m.body|..] == rest;
    TakesDeclaredLength(segments, resets, m.head, m.body + rest);
  }

  /** So the messages behind it are still in step. */
  lemma NextInStep(segments: seq<string>, resets: bool, messages: seq<Message>, tunnel: string)
    requires AllWellFramed(messages) && messages != [] && Carries(segments, messages, tunnel)
    ensures var (reply, left) := ReplyFrom(segments, resets);
            && reply == Ok(ReplyOf(messages[0])) && Carries(left, messages[1..], tunnel)
            && Moved(segments, left, |messages[0].head| + |messages[0].body|)
  {
    hide ReplyFrom, HeadRead, Moved, ReplyOf, WellFramed;
    var m := messages[0];
    var rest := Encode(messages[1..]) + tunnel;
    assert m in messages;
    assert Encode(messages) + tunnel == m.head + m.body + rest;
    ConsumesOneMessage(segments, resets, m, rest);
    forall later | later in messages[1..]
      ensures later.head != ""
    {
      assert later in messages;
      HeadNotEmpty(later);
    }
    HeadsMove(segments, ReplyFrom(segments, resets).1, |m.head| + |m.body|, 0, messages[1..]);
  }

  lemma HeadNotEmpty(m: Message)
    requires WellFramed(m)
    ensures m.head != ""
  {
    HeaderBlockLength(m.head);
  }

  /** A rest without a terminator gives no response. */
  lemma {:induction false} NoHeadInRest(buf: string, segments: seq<string>, resets: bool)
    requires !HasTerminator(buf + Flat(segments))
    ensures HeadersFrom(buf, segments, resets).0.Err?
    decreases |segments|
  {
    hide HasTerminator;
    if segments != [] {
      var grown, later := buf + segments[0], segments[1..];
      assert buf + Flat(segments) == grown + Flat(later);
      if HasTerminator(grown) {
        TerminatorStays(grown, Flat(later));
      }
      NoHeadInRest(grown, later, resets);
    }
  }

  lemma TerminatorStays(s: string, more: string)
    requires HasTerminator(s)
    ensures HasTerminator(s + more)
  {
    var i := FindSubsequence(s, TERMINATOR).value;
    assert (s + more)[i..i + 4] == s[i..i + 4];
    assert OccursAt(s + more, TERMINATOR, i);
  }

  // ---- whole runs ----------------------------------------------------------

  function RepliesOf(messages: seq<Message>): (replies: seq<Reply>)
    requires AllWellFramed(messages)
    ensures |replies| == |messages|
  {
    if messages == [] then [] else [ReplyOf(messages[0])] + RepliesOf(messages[1..])
  }

  /** The bytes an upstream delivers, whatever it does: messages of which only the
      last may be a 200, then the tunnel's bytes; and without a 200 at the end
      either `rounds` messages, or a rest that holds no complete head, such as
      nothing at all from an upstream that refuses and closes. */
  predicate Conversation(messages: seq<Message>, rounds: nat, tunnel: string)
    requires AllWellFramed(messages)
  {
    && (forall i :: 0 <= i < |messages| - 1 ==> ReplyOf(messages[i]).status != 200)
    && (|| |messages| >= rounds || !HasTerminator(tunnel)
        || (messages != [] && ReplyOf(messages[|messages| - 1]).status == 200))
  }

  lemma ConversationStep(messages: seq<Message>, rounds: nat, tunnel: string)
    requires AllWellFramed(messages) && Conversation(messages, rounds + 1, tunnel)
    ensures messages == [] ==> !HasTerminator(tunnel)
    ensures messages != [] ==>
              && AllWellFramed(messages[1..])
              && (ReplyOf(messages[0]).status == 200 ==> |messages| == 1)
              && (ReplyOf(messages[0]).status != 200 ==> Conversation(messages[1..], rounds, tunnel))
  {
    hide WellFramed, ReplyOf, HasTerminator;
    if messages != [] {
      forall m | m in messages[1..]
        ensures WellFramed(m)
      {
        assert m in messages;
      }
    }
  }

  /** What a run has read is an initial part of the conversation, message for
      message, and what it leaves is the rest. A read error means that the run
      asked once more after the last message. */
  ghost predicate InStep(
    events: seq<Event>, result: Result<(), TunnelError>, left: seq<string>, messages: seq<Message>, tunnel: string)
    requires AllWellFramed(messages)
  {
    var n := |Replies(events)|;
    && n <= |messages|
    && Replies(events) == RepliesOf(messages)[..n]
    && (result.Ok? ==> n == |messages|)
    && if result.Err? && ReadError(result.error) then
         n == |messages| && |Requests(events)| == n + 1 && !HasTerminator(tunnel)
       else
         |Requests(events)| == n && Carries(left, messages[n..], tunnel)
  }

  lemma InStepAtRest(result: Result<(), TunnelError>, left: seq<string>, messages: seq<Message>, tunnel: string)
    requires AllWellFramed(messages) && Carries(left, messages, tunnel)
    requires result.Ok? ==> messages == []
    requires result.Err? ==> !ReadError(result.error)
    ensures InStep([], result, left, messages, tunnel)
  {
    hide WellFramed, ReplyOf, Carries, HasTerminator;
    TraceOfRequest("");
    assert messages[0..] == messages;
  }

  lemma InStepUnanswered(request: string, result: Result<(), TunnelError>, left: seq<string>, tunnel: string)
    requires result.Err? && ReadError(result.error) && !HasTerminator(tunnel)
    ensures InStep([Sent(request)], result, left, [], tunnel)
  {
    hide HasTerminator;
    TraceOfRequest(request);
  }

  lemma InStepExtends(
    request: string, events: seq<Event>, result: Result<(), TunnelError>, left: seq<string>,
    messages: seq<Message>, tunnel: string)
    requires AllWellFramed(messages) && messages != [] && AllWellFramed(messages[1..])
    requires InStep(events, result, left, messages[1..], tunnel)
    ensures InStep([Sent(request), Received(ReplyOf(messages[0]))] + events, result, left, messages, tunnel)
  {
    hide WellFramed, ReplyOf, Carries, Requests, Replies, HasTerminator;
    TraceOfPair(request, ReplyOf(messages[0]), events);
    var n := |Replies(events)|;
    assert messages[1..][n..] == messages[n + 1..];
    assert RepliesOf(messages)[..n + 1] == [ReplyOf(messages[0])] + RepliesOf(messages[1..])[..n];
  }

  /** A request sent into a conversation gets the next message as its answer, or
      none when there are no more. */
  lemma ExchangeInStep(net: Net, target: string, authorization: Option<string>, messages: seq<Message>, tunnel: string)
    requires AllWellFramed(messages) && Carries(net.incoming, messages, tunnel)
    requires messages == [] ==> !HasTerminator(tunnel)
    ensures var x := Exchange(net, target, authorization);
            var request := Sent(ConnectRequest(target, authorization));
            if net.writesLeft == 0 then x == Exchanged(Err(Io(BrokenPipe)), [], net)
            else if messages == [] then x.reply.Err? && ReadError(x.reply.error) && x.events == [request]
            else
              && x.reply == Ok(ReplyOf(messages[0]))
              && x.events == [request, Received(ReplyOf(messages[0]))]
              && Carries(x.net.incoming, messages[1..], tunnel)
  {
    if messages == [] {
      assert "" + Flat(net.incoming) == "" + tunnel == tunnel;
      NoHeadInRest("", net.incoming, net.resets);
      ReplyErrors(net.incoming, net.resets);
      hide ConnectRequest, HeadersFrom, Carries, HasTerminator;
    } else {
      hide ConnectRequest, ReplyFrom, Carries, WellFramed, ReplyOf, HasTerminator;
      NextInStep(net.incoming, net.resets, messages, tunnel);
    }
  }

  lemma {:induction false} LoopInStep<S>(
    behaviour: Behaviour<S>, state: S, net: Net, target: string, reply: Reply, round: nat,
    messages: seq<Message>, tunnel: string)
    requires round <= MAX_ROUNDS && reply.status != 200
    requires AllWellFramed(messages) && Conversation(messages, MAX_ROUNDS - round, tunnel)
    requires Carries(net.incoming, messages, tunnel)
    ensures var run := Rounds(behaviour, state, net, target, reply, round);
            InStep(run.events, run.result, run.net.incoming, messages, tunnel)
    decreases MAX_ROUNDS - round
  {
    hide ConnectRequest, Exchange, Carries, WellFramed, ReplyOf, InStep, Conversation, HasTerminator;
    var run := Rounds(behaviour, state, net, target, reply, round);
    if round == MAX_ROUNDS || reply.status != 407 || !behaviour(state, reply.challenge).1.Token? {
      InStepAtRest(run.result, net.incoming, messages, tunnel);
    } else {
      var (next, outcome) := behaviour(state, reply.challenge);
      ConversationStep(messages, MAX_ROUNDS - round - 1, tunnel);
      ExchangeInStep(net, target, Some(outcome.header), messages, tunnel);
      var x := Exchange(net, target, Some(outcome.header));
      var request := ConnectRequest(target, Some(outcome.header));
      if net.writesLeft == 0 {
        InStepAtRest(run.result, net.incoming, messages, tunnel);
      } else if messages == [] {
        InStepUnanswered(request, run.result, run.net.incoming, tunnel);
      } else if x.reply.value.status == 200 {
        InStepAtRest(run.result, x.net.incoming, messages[1..], tunnel);
        InStepExtends(request, [], run.result, x.net.incoming, messages, tunnel);
        assert x.events + [] == x.events;
      } else {
        LoopInStep(behaviour, next, x.net, target, x.reply.value, round + 1, messages[1..], tunnel);
        var later := Rounds(behaviour, next, x.net, target, x.reply.value, round + 1);
        InStepExtends(request, later.events, later.result, later.net.incoming, messages, tunnel);
      }
    }
  }

  /** Through all rounds the stream stands at the next response: the run reads
      the upstream's messages one for one, stops on a read error only when they
      are used up, leaves exactly the messages it did not ask for, and on success
      leaves exactly the tunnel's bytes. */
  lemma HandshakeInStep<S>(
    behaviour: Behaviour<S>, state: S, net: Net, target: string, messages: seq<Message>, tunnel: string)
    requires AllWellFramed(messages) && Conversation(messages, MAX_ROUNDS + 1, tunnel)
    requires Carries(net.incoming, messages, tunnel)
    ensures var run := Handshake(behaviour, state, net, target);
            && InStep(run.events, run.result, run.net.incoming, messages, tunnel)
            && (run.result.Ok? ==> Flat(run.net.incoming) == tunnel)
  {
    var run := Handshake(behaviour, state, net, target);
    RunInStep(behaviour, state, net, target, messages, tunnel);
    if run.result.Ok? {
      var left := run.net.incoming;
      hide *;
      assert InStep(run.events, run.result, left, messages, tunnel);
      NothingBeforeTunnel(run.events, run.result, left, messages, tunnel);
    }
  }

  lemma NothingBeforeTunnel(
    events: seq<Event>, result: Result<(), TunnelError>, left: seq<string>, messages: seq<Message>, tunnel: string)
    requires AllWellFramed(messages) && InStep(events, result, left, messages, tunnel) && result.Ok?
    ensures Flat(left) == tunnel
  {
    hide WellFramed, Requests, Replies, RepliesOf, HasTerminator;
    assert messages[|messages|..] == [];
    assert Encode([]) + tunnel == tunnel;
  }

  lemma RunInStep<S>(
    behaviour: Behaviour<S>, state: S, net: Net, target: string, messages: seq<Message>, tunnel: string)
    requires AllWellFramed(messages) && Conversation(messages, MAX_ROUNDS + 1, tunnel)
    requires Carries(net.incoming, messages, tunnel)
    ensures var run := Handshake(behaviour, state, net, target);
            InStep(run.events, run.result, run.net.incoming, messages, tunnel)
  {
    hide ConnectRequest, Exchange, Carries, WellFramed, ReplyOf, InStep, Rounds, Conversation, HasTerminator;
    var run := Handshake(behaviour, state, net, target);
    ConversationStep(messages, MAX_ROUNDS, tunnel);
    ExchangeInStep(net, target, None, messages, tunnel);
    var x := Exchange(net, target, None);
    var request := ConnectRequest(target, None);
    if net.writesLeft == 0 {
      InStepAtRest(run.result, net.incoming, messages, tunnel);
    } else if messages == [] {
      InStepUnanswered(request, run.result, run.net.incoming, tunnel);
    } else if x.reply.value.status == 200 {
      InStepAtRest(run.result, x.net.incoming, messages[1..], tunnel);
      InStepExtends(request, [], run.result, x.net.incoming, messages, tunnel);
      assert x.events + [] == x.events;
    } else {
      LoopInStep(behaviour, state, x.net, target, x.reply.value, 0, messages[1..], tunnel);
      var later := Rounds(behaviour, state, x.net, target, x.reply.value, 0);
      InStepExtends(request, later.events, later.result, later.net.incoming, messages, tunnel);
    }
  }

  /** The conversation succeeds: at most five messages, a token for each 407
      before the last, and a 200 at the end. */
  ghost predicate Welcomes<S>(behaviour: Behaviour<S>, state: S, replies: seq<Reply>) {
    var n := |replies|;
    && 0 < n <= MAX_ROUNDS + 1
    && replies[n - 1].status == 200
    && Challenged(behaviour, state, replies, n - 1)
  }

  /** The upstream's messages and the writes left decide: the tunnel is
      established exactly when the conversation succeeds and there is a write for
      each of its messages, and then exactly the tunnel's bytes are left. */
  lemma EstablishedExactlyWhenWelcome<S>(
    behaviour: Behaviour<S>, state: S, net: Net, target: string, messages: seq<Message>, tunnel: string)
    requires AllWellFramed(messages) && Conversation(messages, MAX_ROUNDS + 1, tunnel)
    requires Carries(net.incoming, messages, tunnel)
    ensures var run := Handshake(behaviour, state, net, target);
            && (run.result.Ok?
                <==> Welcomes(behaviour, state, RepliesOf(messages)) && net.writesLeft >= |messages|)
            && (run.result.Ok? ==> Flat(run.net.incoming) == tunnel)
  {
    var run := Handshake(behaviour, state, net, target);
    EveryRun(behaviour, state, net, target);
    RunWrites(behaviour, state, net, target);
    HandshakeInStep(behaviour, state, net, target, messages, tunnel);
    hide *;
    DecidedByTrace(behaviour, state, net, target, run, messages, tunnel);
  }

  lemma {:induction false} DecidedByTrace<S>(
    behaviour: Behaviour<S>, state: S, net: Net, target: string, run: Run<S>, messages: seq<Message>, tunnel: string)
    requires FollowsProtocol(behaviour, state, target, run.events)
    requires Explains(run.result, behaviour, state, Replies(run.events), |Replies(run.events)| == |Requests(run.events)|, 0)
    requires WritesAccounted(net, run.result, run.events, run.net)
    requires AllWellFramed(messages) && InStep(run.events, run.result, run.net.incoming, messages, tunnel)
    ensures run.result.Ok? <==> Welcomes(behaviour, state, RepliesOf(messages)) && net.writesLeft >= |messages|
  {
    hide Carries, AllWellFramed, RepliesOf, Requests, Replies, HasTerminator, FollowsProtocol, Explains, Welcomes, Challenged;
    ProtocolCounts(behaviour, state, target, run.events);
    var requests, read := Requests(run.events), Replies(run.events);
    assert read <= RepliesOf(messages);
    hide ReadError;
    DecidedByReplies(behaviour, state, run.result, read, |requests|, RepliesOf(messages), net.writesLeft);
  }

  /** A result explained by the part of the replies that was read and the number
      of requests made. */
  lemma DecidedByReplies<S>(
    behaviour: Behaviour<S>, state: S, result: Result<(), TunnelError>, read: seq<Reply>, requests: nat,
    all: seq<Reply>, writes: nat)
    requires read <= all && |read| <= requests <= |read| + 1 && requests <= MAX_ROUNDS + 1 && requests <= writes
    requires Explains(result, behaviour, state, read, |read| == requests, 0)
    requires result == Err(Io(BrokenPipe)) ==> requests == writes
    requires (result.Ok? ==> read == all) && (|read| < requests ==> read == all)
    requires requests > 0 ==> Challenged(behaviour, state, read, requests - 1)
    ensures result.Ok? <==> Welcomes(behaviour, state, all) && writes >= |all|
  {
    forall k | 0 <= k < |read|
      ensures AnswerTo(behaviour, state, read, k) == AnswerTo(behaviour, state, all, k)
    {
      AnswerOfPrefix(behaviour, state, read, all, k);
    }
    hide AnswerTo;
  }

  lemma {:induction false} AnswerOfPrefix<S>(
    behaviour: Behaviour<S>, state: S, read: seq<Reply>, all: seq<Reply>, k: nat)
    requires read <= all && k < |read|
    ensures AnswerTo(behaviour, state, read, k) == AnswerTo(behaviour, state, all, k)
    decreases k
  {
    if k > 0 {
      AnswerOfPrefix(behaviour, behaviour(state, read[0].challenge).0, read[1..], all[1..], k - 1);
    }
  }

  /** The upstream's messages alone decide how many requests a run makes: with
      writes left it goes beyond `k` exactly when the first `k` messages are 407s
      the session answers, up to the fifth request. */
  lemma RequestsDecidedByMessages<S>(
    behaviour: Behaviour<S>, state: S, net: Net, target: string, messages: seq<Message>, tunnel: string, k: nat)
    requires AllWellFramed(messages) && Conversation(messages, MAX_ROUNDS + 1, tunnel)
    requires Carries(net.incoming, messages, tunnel)
    ensures var run := Handshake(behaviour, state, net, target);
            (|Requests(run.events)| > k
             <==> k <= MAX_ROUNDS && net.writesLeft > k && Challenged(behaviour, state, RepliesOf(messages), k))
  {
    HandshakeInStep(behaviour, state, net, target, messages, tunnel);
    var run := Handshake(behaviour, state, net, target);
    var read, all := Replies(run.events), RepliesOf(messages);
    var n := |read|;
    RequestsExactlyWhen(behaviour, state, net, target, k);
    RequestsExactlyWhen(behaviour, state, net, target, n);
    hide Handshake, Carries, WellFramed, RepliesOf, Requests, Replies, Conversation, Challenged, Flat, HasTerminator;
    if k <= n {
      ChallengedPrefix(behaviour, state, read, all, k);
    } else if Challenged(behaviour, state, all, k) {
      ChallengedFewer(behaviour, state, all, n, k);
      ChallengedPrefix(behaviour, state, read, all, n);
    }
  }

  lemma ChallengedFewer<S>(behaviour: Behaviour<S>, state: S, replies: seq<Reply>, fewer: nat, k: nat)
    requires Challenged(behaviour, state, replies, k) && fewer <= k
    ensures Challenged(behaviour, state, replies, fewer)
  {
    hide AnswerTo;
  }

  lemma ChallengedPrefix<S>(behaviour: Behaviour<S>, state: S, read: seq<Reply>, all: seq<Reply>, k: nat)
    requires read <= all && k <= |read|
    ensures Challenged(behaviour, state, read, k) <==> Challenged(behaviour, state, all, k)
  {
    hide AnswerTo;
    forall j | 0 <= j < k
      ensures AnswerTo(behaviour, state, read, j) == AnswerTo(behaviour, state, all, j)
    {
      AnswerOfPrefix(behaviour, state, read, all, j);
    }
  }
}
