/**
 The tunnel has its own reader for Proxy-Authenticate beside the general header
 lookup. When the two agree.
 */
module ChallengeLookup {
  import opened Wrappers
  import opened Text
  import opened HttpUtils
  import opened AuthTunnel

  const KEY: string := "Proxy-Authenticate"

  /** What each reader makes of a single line. */
  function Tunnel(line: string): Option<string> {
    ChallengeOf(Trim(line))
  }

  function General(line: string): Option<string> {
    if IsHeaderLine(line, KEY) then Some(Trim(line[|KEY| + 1..])) else None
  }

  predicate Unindented(line: string) {
    line == "" || !IsSpace(line[0])
  }

  /** The trimmed line names the header, in any letter case. */
  predicate Names(trimmed: string) {
    |trimmed| > 18 && trimmed[18] == ':' && EqIgnoreCase(trimmed[..18], KEY)
  }

  /** The two forms the tunnel's reader takes: a space after the colon and a
      value after the space; or the name in one of two exact letter cases. */
  predicate TunnelForm(trimmed: string) {
    || (|trimmed| > 20 && trimmed[19] == ' ')
    || StartsWith(trimmed, "Proxy-Authenticate:") || StartsWith(trimmed, "proxy-authenticate:")
  }

  lemma PlainCasesName(trimmed: string)
    requires StartsWith(trimmed, "Proxy-Authenticate:") || StartsWith(trimmed, "proxy-authenticate:")
    ensures Names(trimmed)
  {
    assert trimmed[..19][..18] == trimmed[..18];
    assert trimmed[..19][18] == ':';
    assert Lower('P') == Lower('p') && Lower('A') == Lower('a');
  }

  lemma SpacedNames(trimmed: string)
    requires |trimmed| > 20
    ensures EqIgnoreCase(trimmed[..20], "Proxy-Authenticate: ") <==> Names(trimmed) && trimmed[19] == ' '
  {
    hide EqIgnoreCase;
    assert trimmed[..20] == trimmed[..18] + [trimmed[18], trimmed[19]];
    assert "Proxy-Authenticate: " == KEY + ": ";
    EqIgnoreCaseConcat(trimmed[..18], [trimmed[18], trimmed[19]], KEY, ": ");
    SeparatorIsExact(trimmed[18], trimmed[19]);
  }

  lemma SeparatorIsExact(a: char, b: char)
    ensures EqIgnoreCase([a, b], ": ") <==> a == ':' && b == ' '
  {
    assert [a, b][0] == a && [a, b][1] == b;
  }

  /** The tunnel's reader, in one condition and one value. */
  lemma TunnelReads(trimmed: string)
    ensures ChallengeOf(trimmed)
         == if Names(trimmed) && TunnelForm(trimmed) then Some(Trim(trimmed[19..])) else None
  {
    hide EqIgnoreCase, Trim, Names;
    if |trimmed| > 20 {
      SpacedNames(trimmed);
      if trimmed[19] == ' ' {
        assert trimmed[19..] == " " + trimmed[20..];
        TrimAfterSpace(trimmed[20..]);
      }
    }
    if StartsWith(trimmed, "Proxy-Authenticate:") || StartsWith(trimmed, "proxy-authenticate:") {
      PlainCasesName(trimmed);
    }
  }

  /** The general reader on the same line: the name must start the line. */
  lemma GeneralReads(line: string)
    ensures General(line)
         == if Unindented(line) && Names(Trim(line)) then Some(Trim(Trim(line)[19..])) else None
  {
    hide Trim;
    var trimmed := Trim(line);
    if line != "" && IsSpace(line[0]) {
      assert Lower(line[0]) == line[0] != Lower(KEY[0]);
      assert |line| > 18 ==> line[..18][0] == line[0];
    } else {
      UnindentedTrim(line);
      var n := |trimmed|;
      assert trimmed == line[..n];
      if n > 18 {
        assert trimmed[..18] == line[..18] && line[19..] == trimmed[19..] + line[n..];
        TrimBeforeSpace(trimmed[19..], line[n..]);
      } else if |line| > 18 {
        assert IsSpace(line[18]);
      }
    }
  }

  lemma UnindentedTrim(line: string)
    requires Unindented(line)
    ensures Trim(line) == TrimEnd(line)
    ensures |Trim(line)| <= |line| && Trim(line) == line[..|Trim(line)|]
    ensures Blank(line[|Trim(line)|..])
  {
    hide TrimEnd;
  }

  /** On one line the two readers agree exactly when, if the line names the
      header, it is unindented just in case it has a form the tunnel takes. */
  lemma AgreeOnLine(line: string)
    ensures Tunnel(line) == General(line)
       <==> (Names(Trim(line)) ==> (Unindented(line) <==> TunnelForm(Trim(line))))
  {
    hide ChallengeOf, Names, TunnelForm, Trim, IsHeaderLine;
    TunnelReads(Trim(line));
    GeneralReads(line);
  }

  predicate ReadersAgree(line: string) {
    Names(Trim(line)) ==> (Unindented(line) <==> TunnelForm(Trim(line)))
  }

  lemma {:induction false} AgreeOnLines(lines: seq<string>)
    requires forall line :: line in lines ==> ReadersAgree(line)
    ensures ChallengeIn(lines) == HeaderIn(lines, KEY)
  {
    hide ChallengeOf, Names, TunnelForm, Trim, IsHeaderLine;
    if lines != [] {
      AgreeOnLine(lines[0]);
      assert lines[0] in lines;
      AgreeOnLines(lines[1..]);
    }
  }

  /** On a whole response: agreement on every header line is agreement on the
      challenge. In particular they agree whenever each Proxy-Authenticate line
      is unindented and has a space and a value after the colon. */
  lemma ReadersAgreeOnResponse(raw: string)
    requires Lines(raw) != [] && !IsHeaderLine(Lines(raw)[0], KEY)
    requires forall line :: line in Lines(raw)[1..] ==> ReadersAgree(line)
    ensures FindProxyAuthenticate(raw) == FindHeaderValue(raw, KEY)
  {
    hide Lines, IsHeaderLine, ReadersAgree, Trim;
    AgreeOnLines(Lines(raw)[1..]);
  }

  /** A line that at least one of the readers takes for the challenge. */
  predicate Seen(line: string) {
    Names(Trim(line)) && (Unindented(line) || TunnelForm(Trim(line)))
  }

  /** On whole responses, without exception: the first line that either reader
      takes decides. They agree exactly when there is none, or both take it, or
      the one that passes it over finds the same value further down. */
  lemma ReadersAgreeExactlyWhen(raw: string, i: nat)
    requires Lines(raw) != [] && !IsHeaderLine(Lines(raw)[0], KEY)
    requires i < |Lines(raw)| && forall j :: 0 <= j < i ==> !Seen(Lines(raw)[1..][j])
    requires i < |Lines(raw)| - 1 ==> Seen(Lines(raw)[1..][i])
    ensures var lines := Lines(raw)[1..];
            (FindProxyAuthenticate(raw) == FindHeaderValue(raw, KEY)
             <==> i == |lines| || ReadersAgree(lines[i])
                  || Some(Trim(Trim(lines[i])[19..]))
                     == if Unindented(lines[i]) then ChallengeIn(lines[i + 1..]) else HeaderIn(lines[i + 1..], KEY))
  {
    hide Lines, IsHeaderLine, Seen, ReadersAgree, Trim, ChallengeIn, Unindented;
    AgreeFrom(Lines(raw)[1..], i);
  }

  lemma {:induction false} AgreeFrom(lines: seq<string>, i: nat)
    requires i <= |lines| && forall j :: 0 <= j < i ==> !Seen(lines[j])
    requires i < |lines| ==> Seen(lines[i])
    ensures ChallengeIn(lines) == HeaderIn(lines, KEY)
       <==> i == |lines| || ReadersAgree(lines[i])
            || Some(Trim(Trim(lines[i])[19..]))
               == if Unindented(lines[i]) then ChallengeIn(lines[i + 1..]) else HeaderIn(lines[i + 1..], KEY)
  {
    hide ChallengeOf, Names, TunnelForm, Trim, IsHeaderLine, Unindented;
    if lines != [] {
      TunnelReads(Trim(lines[0]));
      GeneralReads(lines[0]);
      if i > 0 {
        assert !Seen(lines[0]);
        AgreeFrom(lines[1..], i - 1);
        assert i < |lines| ==> lines[1..][i..] == lines[i + 1..];
      }
    }
  }

  /** A line the tunnel's reader misses and the general lookup finds. */
  predicate MissedLine(line: string) {
    Names(Trim(line)) && Unindented(line) && !TunnelForm(Trim(line))
  }

  lemma {:induction false} MissedInLines(lines: seq<string>)
    requires forall line :: line in lines && Names(Trim(line)) ==> MissedLine(line)
    ensures ChallengeIn(lines) == None
    ensures HeaderIn(lines, KEY).Some? <==> exists line :: line in lines && Names(Trim(line))
  {
    hide ChallengeOf, Names, TunnelForm, Trim, IsHeaderLine, Unindented;
    if lines != [] {
      TunnelReads(Trim(lines[0]));
      GeneralReads(lines[0]);
      assert lines[0] in lines;
      MissedInLines(lines[1..]);
    }
  }

  /** They do disagree on whole responses: when each line naming the header is
      unindented and has neither form the tunnel takes, the tunnel sees no
      challenge, while the general lookup finds one as soon as there is such a line. */
  lemma ReadersDisagree(raw: string)
    requires Lines(raw) != [] && !IsHeaderLine(Lines(raw)[0], KEY)
    requires forall line :: line in Lines(raw)[1..] && Names(Trim(line)) ==> MissedLine(line)
    ensures FindProxyAuthenticate(raw) == None
    ensures FindHeaderValue(raw, KEY).Some? <==> exists line :: line in Lines(raw)[1..] && Names(Trim(line))
  {
    hide Lines, IsHeaderLine, MissedLine, Names, Trim, ChallengeIn;
    MissedInLines(Lines(raw)[1..]);
  }

  /** Such a line: a name in capitals without a space after the colon. */
  lemma CapitalsAreMissed()
    ensures MissedLine("PROXY-AUTHENTICATE:NTLM")
    ensures Tunnel("PROXY-AUTHENTICATE:NTLM") == None
    ensures General("PROXY-AUTHENTICATE:NTLM") == Some("NTLM")
  {
    hide Names, Trim, EqIgnoreCase;
    var line := "PROXY-AUTHENTICATE:NTLM";
    assert Trimmed(line) && line[19..] == "NTLM" && Trimmed("NTLM");
    assert line[..19][1] == 'R' && "Proxy-Authenticate:"[1] == 'r' && "proxy-authenticate:"[1] == 'r';
    assert line[19] == 'N';
    CapitalName(line);
    TunnelReads(line);
    GeneralReads(line);
  }

  lemma CapitalName(line: string)
    requires line == "PROXY-AUTHENTICATE:NTLM"
    ensures Names(line)
  {
    assert line[..18] == "PROXY-AUTHENTICATE";
  }
}
