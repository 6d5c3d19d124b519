/**
 NTLM, the challenge loop and the byte stream together: which upstream
 conversations end in a tunnel.
 */
module NtlmTunnel {
  import opened TcpStream
  import opened AuthTunnel
  import opened HandshakeRuns
  import opened StreamSync
  import opened Ntlm

  /** The three conversations an NTLM client can complete: a plain 200; a 407 and
      a 200, given a Type 1 message; two 407s and a 200, when the second holds a
      Type 2 message that a Type 3 message answers. */
  ghost predicate NtlmWelcomes(codec: Codec, creds: Credentials, replies: seq<Reply>) {
    var n := |replies|;
    && 1 <= n <= 3 && replies[n - 1].status == 200
    && (n >= 2 ==> replies[0].status == 407 && Type1(codec, creds).Some?)
    && (n == 3 ==>
          && replies[1].status == 407
          && ServerChallenge(codec, replies[1].challenge).Ok?
          && Type3(codec, creds, ServerChallenge(codec, replies[1].challenge).value).Some?)
  }

  lemma NtlmWelcomesExactly(codec: Codec, creds: Credentials, replies: seq<Reply>)
    ensures Welcomes(NtlmBehaviour(codec, creds), Initial, replies) <==> NtlmWelcomes(codec, creds, replies)
  {
    hide ServerChallenge, Type1, Type3, StateAfter;
    var behaviour := NtlmBehaviour(codec, creds);
    if |replies| > 0 {
      StateCountsTokens(codec, creds, Initial, replies, 0);
      assert AnswerTo(behaviour, Initial, replies, 0).Token? <==> Type1(codec, creds).Some?;
    }
    if |replies| > 1 && AnswerTo(behaviour, Initial, replies, 0).Token? {
      StateCountsTokens(codec, creds, Initial, replies, 1);
      assert StateAfter(behaviour, Initial, replies, 1) == NtlmState.Challenge;
    }
    if |replies| > 2 && AnswerTo(behaviour, Initial, replies, 0).Token? && AnswerTo(behaviour, Initial, replies, 1).Token? {
      NoThirdToken(codec, creds, replies);
    }
  }

  /** For an NTLM session: the tunnel is established exactly by those three
      conversations, and with it exactly the tunnel's bytes are left. */
  lemma NtlmEstablishedExactlyWhen(
    codec: Codec, creds: Credentials, net: Net, target: string, messages: seq<StreamSync.Message>, tunnel: string)
    requires AllWellFramed(messages) && Conversation(messages, MAX_ROUNDS + 1, tunnel)
    requires Carries(net.incoming, messages, tunnel)
    ensures var run := Handshake(NtlmBehaviour(codec, creds), Initial, net, target);
            && (run.result.Ok?
                <==> NtlmWelcomes(codec, creds, RepliesOf(messages)) && net.writesLeft >= |messages|)
            && (run.result.Ok? ==> Flat(run.net.incoming) == tunnel)
  {
    hide Carries, WellFramed, Conversation, Handshake, Welcomes, NtlmWelcomes;
    EstablishedExactlyWhenWelcome(NtlmBehaviour(codec, creds), Initial, net, target, messages, tunnel);
    NtlmWelcomesExactly(codec, creds, RepliesOf(messages));
  }
}
