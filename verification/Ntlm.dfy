/**
 The NTLM session: a three-state machine over an abstract message codec, alone
 and composed with the tunnel's challenge loop.
 */
module Ntlm {
  import opened Wrappers
  import opened Text
  import opened TcpStream
  import opened AuthSession
  import opened AuthTunnel
  import opened HandshakeRuns

  datatype NtlmState = Initial | Challenge | Complete

  datatype Message = ChallengeMessage(content: string) | OtherMessage(content: string)

  datatype Credentials = Credentials(username: string, password: string, domain: string, workstation: string)

  /** The foreign parts: base64, the NTLM message formats, and the clock reading
      that goes into a Type 3 message. Encoders and decoders may fail. */
  datatype Codec = Codec(
    base64: string -> string,
    unbase64: string -> Option<string>,
    parse: string -> Option<Message>,
    negotiate: (string, string) -> Option<string>,
    authenticate: (string, Credentials, nat) -> Option<string>,
    time: nat)

  const SCHEME: string := "NTLM "

  /** The content of the Type 2 message in a challenge header, if it holds one. */
  function ServerChallenge(codec: Codec, challenge: Option<string>): Result<string, string> {
    if challenge.None? then Err("NTLM expected challenge")
    else if !StartsWith(challenge.value, SCHEME) then Err("Invalid NTLM challenge header")
    else
      match codec.unbase64(Trim(challenge.value[5..]))
      case None => Err("invalid base64")
      case Some(bytes) =>
        match codec.parse(bytes)
        case None => Err("Failed to parse NTLM challenge")
        case Some(OtherMessage(_)) => Err("Expected NTLM Challenge message")
        case Some(ChallengeMessage(content)) => Ok(content)
  }

  /** The header that carries the Type 1 message. */
  function Type1(codec: Codec, creds: Credentials): Option<string> {
    match codec.negotiate(creds.domain, creds.workstation)
    case None => None
    case Some(bytes) => Some(SCHEME + codec.base64(bytes))
  }

  /** The header that carries the Type 3 message answering a server challenge. */
  function Type3(codec: Codec, creds: Credentials, content: string): Option<string> {
    match codec.authenticate(content, creds, codec.time)
    case None => None
    case Some(bytes) => Some(SCHEME + codec.base64(bytes))
  }

  function NtlmStep(codec: Codec, creds: Credentials, state: NtlmState, challenge: Option<string>)
    : (NtlmState, StepOutcome)
  {
    match state
    case Initial =>
      (match Type1(codec, creds)
       case None => (Initial, Failed("Failed to encode NTLM Type 1"))
       case Some(header) => (NtlmState.Challenge, Token(header)))
    case Challenge =>
      (match ServerChallenge(codec, challenge)
       case Err(reason) => (NtlmState.Challenge, Failed(reason))
       case Ok(content) =>
         match Type3(codec, creds, content)
         case None => (NtlmState.Challenge, Failed("Failed to encode NTLM Type 3"))
         case Some(header) => (Complete, Token(header)))
    case Complete => (Complete, NoHeader)
  }

  class NtlmSession {
    const codec: Codec
    const creds: Credentials
    var state: NtlmState

    constructor (codec: Codec, creds: Credentials)
      ensures this.codec == codec && this.creds == creds && state == Initial
    {
      this.codec, this.creds, state := codec, creds, Initial;
    }

    method Step(challenge: Option<string>) returns (outcome: StepOutcome)
      modifies this
      ensures (state, outcome) == NtlmStep(codec, creds, old(state), challenge)
    {
      match state {
        case Initial =>
          var bytes := codec.negotiate(creds.domain, creds.workstation);
          if bytes.None? {
            return Failed("Failed to encode NTLM Type 1");
          }
          state := NtlmState.Challenge;
          return Token(SCHEME + codec.base64(bytes.value));
        case Challenge =>
          if challenge.None? {
            return Failed("NTLM expected challenge");
          }
          if !StartsWith(challenge.value, SCHEME) {
            return Failed("Invalid NTLM challenge header");
          }
          var decoded := codec.unbase64(Trim(challenge.value[5..]));
          if decoded.None? {
            return Failed("invalid base64");
          }
          var message := codec.parse(decoded.value);
          if message.None? {
            return Failed("Failed to parse NTLM challenge");
          }
          if message.value.OtherMessage? {
            return Failed("Expected NTLM Challenge message");
          }
          var bytes := codec.authenticate(message.value.content, creds, codec.time);
          if bytes.None? {
            return Failed("Failed to encode NTLM Type 3");
          }
          state := Complete;
          return Token(SCHEME + codec.base64(bytes.value));
        case Complete =>
          return NoHeader;
      }
    }
  }

  // ---- one step ------------------------------------------------------------

  function Rank(state: NtlmState): nat {
    match state case Initial => 0 case Challenge => 1 case Complete => 2
  }

  /** The state advances by exactly one with each token given out, and stays as
      it was otherwise: a bad challenge does not cost the session its state. */
  lemma AdvancesExactlyWithTokens(codec: Codec, creds: Credentials, state: NtlmState, challenge: Option<string>)
    ensures var (next, outcome) := NtlmStep(codec, creds, state, challenge);
            && Rank(next) == Rank(state) + (if outcome.Token? then 1 else 0)
            && (outcome.NoHeader? <==> state == Complete)
            && (outcome.Token? ==> StartsWith(outcome.header, SCHEME))
  {
    hide ServerChallenge;
  }

  /** Once Type 1 is out, a token comes out exactly when the challenge header
      holds a Type 2 message that can be answered, and it is the answer to it. */
  lemma ChallengeAnswered(codec: Codec, creds: Credentials, challenge: Option<string>)
    ensures var outcome := NtlmStep(codec, creds, NtlmState.Challenge, challenge).1;
            && (outcome.Token? <==> exists content ::
                  ServerChallenge(codec, challenge) == Ok(content) && Type3(codec, creds, content).Some?)
            && (outcome.Token? ==> Some(outcome.header) == Type3(codec, creds, ServerChallenge(codec, challenge).value))
  {
    hide ServerChallenge, Type3;
  }

  /** The scheme and a space, spelled out, are what a challenge starts with. */
  lemma SchemeCut(text: string)
    ensures StartsWith("NTLM " + text, SCHEME) && ("NTLM " + text)[5..] == text
  {
    assert ("NTLM " + text)[..5] == "NTLM ";
  }

  /** The first token: the scheme and the encoded Type 1 message for the domain
      and the workstation. */
  lemma NegotiateTokenExactlyWhen(codec: Codec, creds: Credentials, challenge: Option<string>, next: NtlmState, header: string)
    ensures NtlmStep(codec, creds, Initial, challenge) == (next, Token(header))
       <==> exists m :: codec.negotiate(creds.domain, creds.workstation) == Some(m)
                        && next == NtlmState.Challenge && header == "NTLM " + codec.base64(m)
  {
  }

  /** The second token: exactly for a challenge made of the scheme and a text that
      decodes, white space around it taken off, to a Type 2 message that can be
      answered; it is the scheme and the encoded answer to that very message. */
  lemma AuthenticateTokenExactlyWhen(codec: Codec, creds: Credentials, challenge: Option<string>, next: NtlmState, header: string)
    ensures NtlmStep(codec, creds, NtlmState.Challenge, challenge) == (next, Token(header))
       <==> exists text, bytes, content, m ::
              && challenge == Some("NTLM " + text)
              && codec.unbase64(Trim(text)) == Some(bytes)
              && codec.parse(bytes) == Some(ChallengeMessage(content))
              && codec.authenticate(content, creds, codec.time) == Some(m)
              && next == Complete && header == "NTLM " + codec.base64(m)
  {
    hide Trim;
    if challenge.Some? && StartsWith(challenge.value, SCHEME) {
      var text := challenge.value[5..];
      assert challenge.value == challenge.value[..5] + text == "NTLM " + text;
    }
    forall text | challenge == Some("NTLM " + text)
      ensures StartsWith(challenge.value, SCHEME) && challenge.value[5..] == text
    {
      SchemeCut(text);
    }
  }

  /** A step that gives no token fails and leaves the state, or is the last. */
  lemma NoTokenKeepsState(codec: Codec, creds: Credentials, state: NtlmState, challenge: Option<string>)
    ensures var (next, outcome) := NtlmStep(codec, creds, state, challenge);
            && (outcome.NoHeader? <==> state == Complete)
            && (!outcome.Token? ==> next == state)
  {
    hide ServerChallenge, Type1, Type3;
  }

  // ---- whole runs ----------------------------------------------------------

  function NtlmBehaviour(codec: Codec, creds: Credentials): Behaviour<NtlmState> {
    (state: NtlmState, challenge: Option<string>) => NtlmStep(codec, creds, state, challenge)
  }

  /** After `k` tokens the session is in the state of rank `k`. */
  lemma {:induction false} StateCountsTokens(
    codec: Codec, creds: Credentials, state: NtlmState, replies: seq<Reply>, k: nat)
    requires k <= |replies|
    requires forall j :: 0 <= j < k ==> AnswerTo(NtlmBehaviour(codec, creds), state, replies, j).Token?
    ensures Rank(StateAfter(NtlmBehaviour(codec, creds), state, replies, k)) == Rank(state) + k
    decreases k
  {
    hide NtlmStep;
    if k > 0 {
      var behaviour := NtlmBehaviour(codec, creds);
      var next := behaviour(state, replies[0].challenge).0;
      assert AnswerTo(behaviour, state, replies, 0).Token?;
      AdvancesExactlyWithTokens(codec, creds, state, replies[0].challenge);
      forall j | 0 <= j < k - 1
        ensures AnswerTo(behaviour, next, replies[1..], j).Token?
      {
        assert AnswerTo(behaviour, state, replies, j + 1).Token?;
      }
      StateCountsTokens(codec, creds, next, replies[1..], k - 1);
    }
  }

  /** A session that has given out two tokens has none for a third challenge. */
  lemma NoThirdToken(codec: Codec, creds: Credentials, replies: seq<Reply>)
    requires |replies| > 2
    requires forall j :: 0 <= j < 2 ==> AnswerTo(NtlmBehaviour(codec, creds), Initial, replies, j).Token?
    ensures AnswerTo(NtlmBehaviour(codec, creds), Initial, replies, 2) == NoHeader
  {
    StateCountsTokens(codec, creds, Initial, replies, 2);
  }

  /** Every NTLM run sends at most three requests: bare, with Type 1, with the
      Type 3 that answers the second response; and a 407 after Type 3 ends the
      run in an error with nothing more sent. */
  lemma NtlmRun(codec: Codec, creds: Credentials, net: Net, target: string)
    ensures var run := Handshake(NtlmBehaviour(codec, creds), Initial, net, target);
            var requests, replies := Requests(run.events), Replies(run.events);
            && |requests| <= 3
            && (|requests| > 0 ==> requests[0] == ConnectRequest(target, None))
            && (|requests| > 1 ==>
                  Type1(codec, creds).Some? && requests[1] == ConnectRequest(target, Type1(codec, creds)))
            && (|requests| > 2 ==>
                  && |replies| > 1 && ServerChallenge(codec, replies[1].challenge).Ok?
                  && var answer := Type3(codec, creds, ServerChallenge(codec, replies[1].challenge).value);
                     answer.Some? && requests[2] == ConnectRequest(target, answer))
            && (|replies| == 3 ==>
                  && (run.result.Ok? <==> replies[2].status == 200)
                  && (replies[2].status == 407 ==> run.result == Err(NoToken(2, 407))))
  {
    var behaviour := NtlmBehaviour(codec, creds);
    var run := Handshake(behaviour, Initial, net, target);
    var requests, replies := Requests(run.events), Replies(run.events);
    EveryRun(behaviour, Initial, net, target);
    hide Handshake, ConnectRequest, ServerChallenge, Type1, Type3, Alternates, Requests, Replies, StateAfter;
    var tokens := if requests == [] then [] else requests[1..];
    assert Answers(behaviour, Initial, target, replies, tokens);
    if |replies| > 2 && |tokens| >= 2 {
      NoThirdToken(codec, creds, replies);
    }
    if |tokens| > 0 {
      StateCountsTokens(codec, creds, Initial, replies, 0);
      assert requests[1] == tokens[0];
    }
    if |tokens| > 1 {
      StateCountsTokens(codec, creds, Initial, replies, 1);
      assert requests[2] == tokens[1];
    }
  }
}
