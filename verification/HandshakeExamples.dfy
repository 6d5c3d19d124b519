/**
 Concrete conversations: the hypotheses of the stream theorems can be met, and
 the handshake does make five requests.
 */
module HandshakeExamples {
  import opened Wrappers
  import opened Text
  import opened HttpUtils
  import opened TcpStream
  import opened AuthSession
  import opened AuthTunnel
  import opened HandshakeRuns
  import opened StreamSync
  import opened ProxyWire

  /** A response without a body. */
  function PlainMessage(code: nat): Message {
    Message(Block([StatusLine("HTTP/1.1", Decimal(code), "-")]), "")
  }

  lemma PlainMessageReads(code: nat)
    requires code < 0x1_0000
    ensures WellFramed(PlainMessage(code)) && ReplyOf(PlainMessage(code)).status == code
  {
    var line := StatusLine("HTTP/1.1", Decimal(code), "-");
    assert [line] + [] == [line];
    assert Block([line]) + "" == Block([line]);
    assert IsWord("HTTP/1.1") && Clean("HTTP/1.1") && Clean("-");
    ParsePrintedStatus("HTTP/1.1", code, "-", [], "");
    LinesOfBlock([line]);
    BlockIsHeaderBlock([line]);
    NoLength(line);
    hide ParseStatus, HeaderBlock, Block, Lines, StatusLine, Decimal, FindProxyAuthenticate, IsContentLengthLine;
    assert ParseContentLength(Block([line])) == ContentLengthIn([line, ""]);
    assert [line, ""][1..] == [""] && [""][1..] == [];
    assert ContentLengthIn([line, ""]) == ContentLengthIn([""]) == ContentLengthIn([]) == 0;
  }

  lemma NoLength(line: string)
    requires line != "" && line[0] == 'H'
    ensures !IsContentLengthLine(line) && !IsContentLengthLine("")
  {
    assert |line| >= 15 ==> line[..15][0] == 'H';
    assert Lower('H') != Lower("content-length:"[0]);
  }

  function HeadsOf(messages: seq<Message>): seq<string> {
    if messages == [] then [] else [messages[0].head] + HeadsOf(messages[1..])
  }

  /** An upstream that sends each head in one piece carries its messages. */
  lemma {:induction false} OneReadEach(messages: seq<Message>)
    requires AllWellFramed(messages)
    requires forall m :: m in messages ==> m.body == "" && |m.head| <= MAX_HEADER_BYTES + 1
    ensures Carries(HeadsOf(messages), messages, "")
  {
    hide WellFramed;
    if messages != [] {
      var m, segments := messages[0], HeadsOf(messages);
      assert m in messages && segments[1..] == HeadsOf(messages[1..]);
      OneReadEach(messages[1..]);
      forall later | later in messages[1..]
        ensures later.head != ""
      {
        assert later in messages;
        HeadNotEmpty(later);
      }
      assert CutAt(segments[1..], 0);
      HeadsMove(segments, segments[1..], |m.head|, 0, messages[1..]);
      assert m.head + "" == m.head && Flat(segments[1..]) + "" == Flat(segments[1..]);
    }
  }

  /** A session that always has a token. */
  function AlwaysToken(): Behaviour<int> {
    (state: int, challenge: Option<string>) => (state, Token("NTLM -"))
  }

  function FourChallengesThenWelcome(): seq<Message> {
    [PlainMessage(407), PlainMessage(407), PlainMessage(407), PlainMessage(407), PlainMessage(200)]
  }

  lemma ExampleReads()
    ensures var messages := FourChallengesThenWelcome();
            && AllWellFramed(messages) && Conversation(messages, MAX_ROUNDS + 1, "")
            && Welcomes(AlwaysToken(), 0, RepliesOf(messages)) && Carries(HeadsOf(messages), messages, "")
  {
    hide PlainMessage, WellFramed, ReplyOf, HasTerminator, Carries, RepliesOf, Conversation, Welcomes, AlwaysToken;
    hide FourChallengesThenWelcome;
    ExampleFramed();
    OneReadEach(FourChallengesThenWelcome());
    WelcomesAtLast(FourChallengesThenWelcome());
  }

  lemma ExampleFramed()
    ensures var messages := FourChallengesThenWelcome();
            && |messages| == 5 && AllWellFramed(messages)
            && (forall m :: m in messages ==> m.body == "" && |m.head| <= MAX_HEADER_BYTES)
            && forall k :: 0 <= k < 5 ==> ReplyOf(messages[k]).status == if k < 4 then 407 else 200
  {
    hide PlainMessage, WellFramed, ReplyOf;
    PlainMessageReads(407);
    PlainMessageReads(200);
    ShortHead(407);
    ShortHead(200);
  }

  lemma WelcomesAtLast(messages: seq<Message>)
    requires |messages| == 5 && AllWellFramed(messages)
    requires forall k :: 0 <= k < 5 ==> ReplyOf(messages[k]).status == if k < 4 then 407 else 200
    ensures Conversation(messages, MAX_ROUNDS + 1, "") && Welcomes(AlwaysToken(), 0, RepliesOf(messages))
  {
    hide WellFramed, ReplyOf, HasTerminator, RepliesOf;
    RepliesAt(messages);
    var replies := RepliesOf(messages);
    assert forall k :: 0 <= k < 5 ==> replies[k] == ReplyOf(messages[k]);
    hide StateAfter;
  }

  lemma ShortHead(code: nat)
    requires code == 407 || code == 200
    ensures |PlainMessage(code).head| <= MAX_HEADER_BYTES && PlainMessage(code).body == ""
  {
    assert |Decimal(code / 100)| == 1 && |Decimal(code / 10)| == 2 && |Decimal(code)| == 3;
    hide Decimal;
    var line := StatusLine("HTTP/1.1", Decimal(code), "-");
    assert Block([line]) == line + CRLF + Block([]);
  }

  lemma {:induction false} RepliesAt(messages: seq<Message>)
    requires AllWellFramed(messages)
    ensures forall k :: 0 <= k < |messages| ==> messages[k] in messages && RepliesOf(messages)[k] == ReplyOf(messages[k])
  {
    hide WellFramed, ReplyOf;
    if messages != [] {
      RepliesAt(messages[1..]);
      assert forall k :: 1 <= k < |messages| ==> messages[k] == messages[1..][k - 1];
    }
  }

  /** Five requests and not four: after four challenges the fifth request, bare
      one included, establishes the tunnel. */
  lemma FiveRequestsHappen(target: string)
    ensures var run := Handshake(AlwaysToken(), 0, Net(HeadsOf(FourChallengesThenWelcome()), false, 5), target);
            run.result.Ok? && |Requests(run.events)| == 5
  {
    ExampleReads();
    var messages := FourChallengesThenWelcome();
    var net := Net(HeadsOf(messages), false, 5);
    assert |messages| == 5;
    hide Handshake, AllWellFramed, Conversation, Carries, RepliesOf, FourChallengesThenWelcome, Requests, HeadsOf;
    hide AlwaysToken;
    EstablishedExactlyWhenWelcome(AlwaysToken(), 0, net, target, messages, "");
    RequestsDecidedByMessages(AlwaysToken(), 0, net, target, messages, "", 4);
    RequestsDecidedByMessages(AlwaysToken(), 0, net, target, messages, "", 5);
    hide Challenged;
  }
}
