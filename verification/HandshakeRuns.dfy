/**
 What holds of every run of the handshake, for every upstream, every network
 and every authentication session.
 */
module HandshakeRuns {
  import opened Wrappers
  import opened HttpUtils
  import opened TcpStream
  import opened AuthSession
  import opened AuthTunnel

  /** The responses of a trace, in order. */
  function Replies(events: seq<Event>): seq<Reply> {
    if events == [] then []
    else (if events[0].Received? then [events[0].reply] else []) + Replies(events[1..])
  }

  /** Requests and complete responses strictly alternate, a request first. */
  ghost predicate Alternates(events: seq<Event>) {
    forall i :: 0 <= i < |events| ==> (events[i].Sent? <==> i % 2 == 0)
  }

  /** The session's state once it was fed the first `k` challenges. */
  function StateAfter<S>(behaviour: Behaviour<S>, state: S, replies: seq<Reply>, k: nat): S
    requires k <= |replies|
  {
    if k == 0 then state
    else StateAfter(behaviour, behaviour(state, replies[0].challenge).0, replies[1..], k - 1)
  }

  /** What the session answers to the challenge of response `k`. */
  function AnswerTo<S>(behaviour: Behaviour<S>, state: S, replies: seq<Reply>, k: nat): StepOutcome
    requires k < |replies|
  {
    behaviour(StateAfter(behaviour, state, replies, k), replies[k].challenge).1
  }

  /** Each request answers a 407 with exactly the session's token for it. */
  ghost predicate Answers<S>(
    behaviour: Behaviour<S>, state: S, target: string, replies: seq<Reply>, requests: seq<string>)
  {
    |requests| <= |replies| && forall k :: 0 <= k < |requests| ==>
      && replies[k].status == 407
      && AnswerTo(behaviour, state, replies, k).Token?
      && requests[k] == ConnectRequest(target, Some(AnswerTo(behaviour, state, replies, k).header))
  }

  /** The protocol: alternation on one connection, at most five requests, the
      first without credentials, each later one with the session's token. */
  ghost predicate FollowsProtocol<S>(behaviour: Behaviour<S>, state: S, target: string, events: seq<Event>) {
    var requests, replies := Requests(events), Replies(events);
    && Alternates(events)
    && |requests| <= MAX_ROUNDS + 1
    && |replies| <= |requests| <= |replies| + 1 && |events| == |requests| + |replies|
    && (requests != [] ==> requests[0] == ConnectRequest(target, None)
                           && Answers(behaviour, state, target, replies, requests[1..]))
  }

  /** Which result belongs to which trace. `replies` ends with the last response
      read and starts with the one that entered round `first`; `complete` says
      that the last response answers the last request sent. */
  ghost predicate Explains<S>(
    result: Result<(), TunnelError>, behaviour: Behaviour<S>, state: S, replies: seq<Reply>, complete: bool, first: nat)
  {
    if !complete then
      result.Err? && ReadError(result.error)
    else if replies == [] then
      result == Err(Io(BrokenPipe))
    else
      var last, used := replies[|replies| - 1], first + |replies| - 1;
      if last.status == 200 then result == Ok(())
      else if used == MAX_ROUNDS then result == Err(Exhausted(last.status))
      else
        && used < MAX_ROUNDS
        && if last.status != 407 then result == Err(UnexpectedStatus(last.status, used))
           else
             match AnswerTo(behaviour, state, replies, |replies| - 1)
             case Failed(reason) => result == Err(StepError(reason))
             case NoHeader => result == Err(NoToken(used, 407))
             case Token(_) => result == Err(Io(BrokenPipe))
  }

  /** The errors of a response that could not be read. */
  predicate ReadError(e: TunnelError) {
    || e == Io(ConnectionReset) || e == Io(UnexpectedEof)
    || e == ClosedBeforeHeaders || e == HeadersTooLarge || e == NoStatus
  }

  lemma FirstAnswer<S>(behaviour: Behaviour<S>, state: S, reply: Reply, rest: seq<Reply>)
    ensures AnswerTo(behaviour, state, [reply] + rest, 0) == behaviour(state, reply.challenge).1
  {
  }

  lemma LaterAnswer<S>(behaviour: Behaviour<S>, state: S, reply: Reply, rest: seq<Reply>, k: nat)
    requires k < |rest|
    ensures AnswerTo(behaviour, state, [reply] + rest, k + 1)
         == AnswerTo(behaviour, behaviour(state, reply.challenge).0, rest, k)
  {
    assert ([reply] + rest)[1..] == rest;
  }

  // ---- one round -----------------------------------------------------------

  lemma ExchangeTrace(net: Net, target: string, authorization: Option<string>)
    ensures var x := Exchange(net, target, authorization);
            var request := Sent(ConnectRequest(target, authorization));
            match x.reply
            case Ok(reply) => x.events == [request, Received(reply)]
            case Err(e) => (x.events == [] && e == Io(BrokenPipe)) || (x.events == [request] && ReadError(e))
  {
    ReplyErrors(net.incoming, net.resets);
    hide ReplyFrom, ConnectRequest;
  }

  lemma ReplyErrors(segments: seq<string>, resets: bool)
    ensures ReplyFrom(segments, resets).0.Err? ==> ReadError(ReplyFrom(segments, resets).0.error)
  {
    HeaderErrors("", segments, resets);
    hide HeadersFrom, ParseStatus, ParseContentLength, FindProxyAuthenticate;
  }

  lemma HeaderErrors(buf: string, segments: seq<string>, resets: bool)
    ensures HeadersFrom(buf, segments, resets).0.Err? ==> ReadError(HeadersFrom(buf, segments, resets).0.error)
    decreases |segments|
  {
    hide HasTerminator;
    if segments != [] {
      HeaderErrors(buf + segments[0], segments[1..], resets);
    }
  }

  lemma TraceOfRequest(request: string)
    ensures Requests([]) == [] && Replies([]) == []
    ensures Requests([Sent(request)]) == [request] && Replies([Sent(request)]) == []
  {
  }

  lemma TraceOfPair(request: string, reply: Reply, later: seq<Event>)
    ensures var events := [Sent(request), Received(reply)] + later;
            && Requests(events) == [request] + Requests(later)
            && Replies(events) == [reply] + Replies(later)
            && (Alternates(later) ==> Alternates(events))
  {
    var events := [Sent(request), Received(reply)] + later;
    assert events[1..] == [Received(reply)] + later;
    assert events[1..][1..] == later;
    assert forall i :: 2 <= i < |events| ==> events[i] == later[i - 2];
  }

  // ---- the loop ------------------------------------------------------------

  /** The loop's part of a run, seen together with the response it starts from. */
  ghost predicate LoopRun<S>(behaviour: Behaviour<S>, state: S, target: string, reply: Reply, round: nat, run: Run<S>) {
    var requests, replies := Requests(run.events), [reply] + Replies(run.events);
    && Alternates(run.events)
    && |run.events| + 1 == |requests| + |replies|
    && |replies| <= |requests| + 1 <= |replies| + 1
    && |requests| <= MAX_ROUNDS - round
    && Answers(behaviour, state, target, replies, requests)
    && Explains(run.result, behaviour, state, replies, |requests| + 1 == |replies|, round)
  }

  lemma {:induction false} LoopRuns<S>(
    behaviour: Behaviour<S>, state: S, net: Net, target: string, reply: Reply, round: nat)
    requires round <= MAX_ROUNDS && reply.status != 200
    ensures LoopRun(behaviour, state, target, reply, round, Rounds(behaviour, state, net, target, reply, round))
    decreases MAX_ROUNDS - round
  {
    hide ConnectRequest, Exchange, Requests, Replies, LoopRun;
    var run := Rounds(behaviour, state, net, target, reply, round);
    if round == MAX_ROUNDS || reply.status != 407 || !behaviour(state, reply.challenge).1.Token? {
      LoopEnds(behaviour, state, net, target, reply, round);
    } else {
      var (next, outcome) := behaviour(state, reply.challenge);
      ExchangeTrace(net, target, Some(outcome.header));
      var x := Exchange(net, target, Some(outcome.header));
      if x.reply.Err? {
        LoopBreaks(behaviour, state, target, reply, round, run);
      } else if x.reply.value.status == 200 {
        var done := Run(Ok(()), [], next, x.net);
        LoopDone(behaviour, target, x.reply.value, round + 1, done);
        ExtendLoop(behaviour, state, target, reply, round, x.reply.value, done);
        assert run == Run(Ok(()), x.events + [], next, x.net);
      } else {
        LoopRuns(behaviour, next, x.net, target, x.reply.value, round + 1);
        ExtendLoop(behaviour, state, target, reply, round, x.reply.value,
                   Rounds(behaviour, next, x.net, target, x.reply.value, round + 1));
      }
    }
  }

  /** A loop that stops before sending anything. */
  lemma LoopEnds<S>(behaviour: Behaviour<S>, state: S, net: Net, target: string, reply: Reply, round: nat)
    requires round <= MAX_ROUNDS && reply.status != 200
    requires round == MAX_ROUNDS || reply.status != 407 || !behaviour(state, reply.challenge).1.Token?
    ensures LoopRun(behaviour, state, target, reply, round, Rounds(behaviour, state, net, target, reply, round))
  {
    hide ConnectRequest, Exchange;
    TraceOfRequest("");
    FirstAnswer(behaviour, state, reply, []);
    assert [reply] + [] == [reply];
  }

  /** A loop whose next exchange fails. */
  lemma LoopBreaks<S>(behaviour: Behaviour<S>, state: S, target: string, reply: Reply, round: nat, run: Run<S>)
    requires round < MAX_ROUNDS && reply.status == 407 && behaviour(state, reply.challenge).1.Token?
    requires var request := ConnectRequest(target, Some(behaviour(state, reply.challenge).1.header));
             (run.events == [] && run.result == Err(Io(BrokenPipe)))
             || (run.events == [Sent(request)] && run.result.Err? && ReadError(run.result.error))
    ensures LoopRun(behaviour, state, target, reply, round, run)
  {
    hide ConnectRequest, Requests, Replies;
    TraceOfRequest(ConnectRequest(target, Some(behaviour(state, reply.challenge).1.header)));
    FirstAnswer(behaviour, state, reply, []);
    assert [reply] + [] == [reply];
  }

  /** Nothing more to do after a 200. */
  lemma LoopDone<S>(behaviour: Behaviour<S>, target: string, reply: Reply, round: nat, run: Run<S>)
    requires round <= MAX_ROUNDS && reply.status == 200 && run.events == [] && run.result == Ok(())
    ensures LoopRun(behaviour, run.state, target, reply, round, run)
  {
    TraceOfRequest("");
  }

  /** Putting one answered round in front of the rest of the loop. */
  lemma ExtendLoop<S>(
    behaviour: Behaviour<S>, state: S, target: string, reply: Reply, round: nat, answer: Reply, later: Run<S>)
    requires round < MAX_ROUNDS && reply.status == 407 && behaviour(state, reply.challenge).1.Token?
    requires LoopRun(behaviour, behaviour(state, reply.challenge).0, target, answer, round + 1, later)
    ensures var request := ConnectRequest(target, Some(behaviour(state, reply.challenge).1.header));
            LoopRun(behaviour, state, target, reply, round,
                    Run(later.result, [Sent(request), Received(answer)] + later.events, later.state, later.net))
  {
    hide ConnectRequest, Requests, Replies, StateAfter, AnswerTo, Alternates;
    var next := behaviour(state, reply.challenge).0;
    var request := ConnectRequest(target, Some(behaviour(state, reply.challenge).1.header));
    TraceOfPair(request, answer, later.events);
    var rest := [answer] + Replies(later.events);
    LaterAnswer(behaviour, state, reply, rest, |rest| - 1);
    AnswersExtend(behaviour, state, target, reply, rest, Requests(later.events));
  }

  lemma AnswersExtend<S>(
    behaviour: Behaviour<S>, state: S, target: string, reply: Reply, rest: seq<Reply>, requests: seq<string>)
    requires reply.status == 407 && behaviour(state, reply.challenge).1.Token?
    requires Answers(behaviour, behaviour(state, reply.challenge).0, target, rest, requests)
    ensures var request := ConnectRequest(target, Some(behaviour(state, reply.challenge).1.header));
            Answers(behaviour, state, target, [reply] + rest, [request] + requests)
  {
    hide ConnectRequest, AnswerTo;
    var next := behaviour(state, reply.challenge).0;
    var replies := [reply] + rest;
    var all := [ConnectRequest(target, Some(behaviour(state, reply.challenge).1.header))] + requests;
    forall k | 0 <= k < |all|
      ensures replies[k].status == 407 && AnswerTo(behaviour, state, replies, k).Token?
      ensures all[k] == ConnectRequest(target, Some(AnswerTo(behaviour, state, replies, k).header))
    {
      if k == 0 {
        FirstAnswer(behaviour, state, reply, rest);
      } else {
        LaterAnswer(behaviour, state, reply, rest, k - 1);
        assert all[k] == requests[k - 1] && replies[k] == rest[k - 1];
      }
    }
  }

  // ---- whole runs ----------------------------------------------------------

  /** Every run follows the protocol, and its result is the one its trace calls for. */
  lemma EveryRun<S>(behaviour: Behaviour<S>, state: S, net: Net, target: string)
    ensures var run := Handshake(behaviour, state, net, target);
            && FollowsProtocol(behaviour, state, target, run.events)
            && Explains(run.result, behaviour, state, Replies(run.events),
                        |Replies(run.events)| == |Requests(run.events)|, 0)
  {
    hide ConnectRequest, Exchange, Rounds, Requests, Replies, Alternates, AnswerTo;
    ExchangeTrace(net, target, None);
    var x := Exchange(net, target, None);
    var bare := ConnectRequest(target, None);
    TraceOfRequest(bare);
    if x.reply.Err? {
      AlternatesAlone(bare);
    } else {
      var reply := x.reply.value;
      var later := if reply.status == 200 then Run(Ok(()), [], state, x.net)
                   else Rounds(behaviour, state, x.net, target, reply, 0);
      if reply.status == 200 {
        LoopDone(behaviour, target, reply, 0, later);
      } else {
        LoopRuns(behaviour, state, x.net, target, reply, 0);
      }
      TraceOfPair(bare, reply, later.events);
      assert Handshake(behaviour, state, net, target)
          == Run(later.result, x.events + later.events, later.state, later.net) by {
        assert x.events + [] == x.events;
      }
      assert ([bare] + Requests(later.events))[1..] == Requests(later.events);
    }
  }

  lemma AlternatesAlone(request: string)
    ensures Alternates([]) && Alternates([Sent(request)])
  {
  }

  /** When every exchange completed, the tunnel is established exactly when
      every response but the last was a 407, the last was a 200, and the session
      had a token for each challenge. */
  lemma EstablishedExactlyWhen<S>(behaviour: Behaviour<S>, state: S, net: Net, target: string)
    ensures var run := Handshake(behaviour, state, net, target);
            var replies := Replies(run.events);
            var n := |replies|;
            |Requests(run.events)| == n && run.result != Err(Io(BrokenPipe)) ==>
              n > 0 &&
              (run.result.Ok? <==>
                 && replies[n - 1].status == 200
                 && forall k :: 0 <= k < n - 1 ==>
                      replies[k].status == 407 && AnswerTo(behaviour, state, replies, k).Token?)
  {
    hide Handshake, Requests, Replies, ConnectRequest, AnswerTo, Alternates;
    EveryRun(behaviour, state, net, target);
  }

  /** Exhaustion is reported exactly after five responses of which the last is no
      200, whatever its status is. */
  lemma ExhaustedExactlyWhen<S>(behaviour: Behaviour<S>, state: S, net: Net, target: string, status: nat)
    ensures var run := Handshake(behaviour, state, net, target);
            var replies := Replies(run.events);
            (run.result == Err(Exhausted(status))
             <==> |replies| == MAX_ROUNDS + 1 && replies[MAX_ROUNDS].status == status != 200)
  {
    hide Handshake, Requests, Replies, ConnectRequest, AnswerTo, Alternates;
    EveryRun(behaviour, state, net, target);
  }

  // ---- writes --------------------------------------------------------------

  /** A run uses one write for each request, and a broken pipe means that there
      was no write left. */
  ghost predicate WritesAccounted(net: Net, result: Result<(), TunnelError>, events: seq<Event>, after: Net) {
    && after.writesLeft + |Requests(events)| == net.writesLeft
    && (result == Err(Io(BrokenPipe)) ==> after.writesLeft == 0)
  }

  lemma ExchangeWrites(net: Net, target: string, authorization: Option<string>)
    ensures var x := Exchange(net, target, authorization);
            && x.net.writesLeft + |Requests(x.events)| == net.writesLeft
            && (x.reply == Err(Io(BrokenPipe)) ==> x.net.writesLeft == 0)
  {
    hide ReplyFrom, ConnectRequest, Requests;
    ExchangeTrace(net, target, authorization);
    TraceOfRequest(ConnectRequest(target, authorization));
    var x := Exchange(net, target, authorization);
    if x.reply.Ok? {
      TraceOfPair(ConnectRequest(target, authorization), x.reply.value, []);
      assert x.events + [] == x.events;
    }
  }

  lemma {:induction false} RoundsWrites<S>(
    behaviour: Behaviour<S>, state: S, net: Net, target: string, reply: Reply, round: nat)
    requires round <= MAX_ROUNDS
    ensures var run := Rounds(behaviour, state, net, target, reply, round);
            WritesAccounted(net, run.result, run.events, run.net)
    decreases MAX_ROUNDS - round
  {
    TraceOfRequest("");
    hide Exchange, Requests, ConnectRequest;
    if round < MAX_ROUNDS && reply.status == 407 && behaviour(state, reply.challenge).1.Token? {
      var (next, outcome) := behaviour(state, reply.challenge);
      ExchangeWrites(net, target, Some(outcome.header));
      var x := Exchange(net, target, Some(outcome.header));
      if x.reply.Ok? && x.reply.value.status != 200 {
        RoundsWrites(behaviour, next, x.net, target, x.reply.value, round + 1);
        RequestsConcat(x.events, Rounds(behaviour, next, x.net, target, x.reply.value, round + 1).events);
      }
    }
  }

  lemma RunWrites<S>(behaviour: Behaviour<S>, state: S, net: Net, target: string)
    ensures var run := Handshake(behaviour, state, net, target);
            WritesAccounted(net, run.result, run.events, run.net)
  {
    hide Exchange, Requests, ConnectRequest, Rounds;
    ExchangeWrites(net, target, None);
    var x := Exchange(net, target, None);
    if x.reply.Ok? && x.reply.value.status != 200 {
      RoundsWrites(behaviour, state, x.net, target, x.reply.value, 0);
      RequestsConcat(x.events, Rounds(behaviour, state, x.net, target, x.reply.value, 0).events);
    }
  }

  /** The first `k` responses ask for credentials and the session has them. */
  ghost predicate Challenged<S>(behaviour: Behaviour<S>, state: S, replies: seq<Reply>, k: nat) {
    k <= |replies| && forall j :: 0 <= j < k ==> replies[j].status == 407 && AnswerTo(behaviour, state, replies, j).Token?
  }

  lemma ChallengedStep<S>(behaviour: Behaviour<S>, state: S, reply: Reply, rest: seq<Reply>, k: nat)
    requires Challenged(behaviour, state, [reply] + rest, k + 1)
    ensures reply.status == 407 && behaviour(state, reply.challenge).1.Token?
    ensures Challenged(behaviour, behaviour(state, reply.challenge).0, rest, k)
  {
    hide AnswerTo;
    var all := [reply] + rest;
    assert all[0].status == 407 && AnswerTo(behaviour, state, all, 0).Token?;
    FirstAnswer(behaviour, state, reply, rest);
    forall j | 0 <= j < k
      ensures rest[j].status == 407 && AnswerTo(behaviour, behaviour(state, reply.challenge).0, rest, j).Token?
    {
      assert all[j + 1].status == 407 && AnswerTo(behaviour, state, all, j + 1).Token?;
      LaterAnswer(behaviour, state, reply, rest, j);
    }
  }

  /** In a trace of the protocol every response but one that is still to be
      answered was a challenge. */
  lemma ProtocolCounts<S>(behaviour: Behaviour<S>, state: S, target: string, events: seq<Event>)
    requires FollowsProtocol(behaviour, state, target, events)
    ensures var requests, replies := |Requests(events)|, |Replies(events)|;
            && replies <= requests <= replies + 1 && requests <= MAX_ROUNDS + 1
            && (requests > 0 ==> Challenged(behaviour, state, Replies(events), requests - 1))
  {
    hide Requests, Replies, ConnectRequest, AnswerTo, Alternates;
    var requests := Requests(events);
    if requests != [] {
      assert forall j :: 0 <= j < |requests| - 1 ==> requests[1..][j] == requests[j + 1];
    }
  }

  /** How many requests a run makes: it goes beyond `k` exactly when it can still
      write and was challenged `k` times, up to the fifth request and never
      beyond. So all five are made exactly when the first four responses are
      407s the session answers. */
  lemma RequestsExactlyWhen<S>(behaviour: Behaviour<S>, state: S, net: Net, target: string, k: nat)
    ensures var run := Handshake(behaviour, state, net, target);
            (|Requests(run.events)| > k
             <==> k <= MAX_ROUNDS && net.writesLeft > k && Challenged(behaviour, state, Replies(run.events), k))
  {
    hide Handshake, Requests, Replies, ConnectRequest, AnswerTo, Alternates;
    EveryRun(behaviour, state, net, target);
    RunWrites(behaviour, state, net, target);
    var run := Handshake(behaviour, state, net, target);
    var requests, replies := Requests(run.events), Replies(run.events);
    if requests != [] {
      assert forall j :: 0 <= j < |requests| - 1 ==> requests[1..][j] == requests[j + 1];
    }
  }
}
