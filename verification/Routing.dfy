/**
 Where a request goes: how the target is printed, how two readers take the host
 back out of it, and the routing decision.
 */
module Routing {
  import opened Wrappers
  import opened Text
  import opened Exceptions

  /** The target of a plain request: an IPv6 literal gets its brackets back. */
  function Target(host: string, port: nat): string {
    if ':' in host then "[" + host + "]:" + Decimal(port) else host + ":" + Decimal(port)
  }

  /** The host used for routing: everything before the first colon. */
  function RoutingHost(target: string): string {
    Split(target, ':')[0]
  }

  function LastIndexOf(s: string, c: char): (i: int)
    ensures -1 <= i < |s|
    ensures i >= 0 ==> s[i] == c
    ensures c !in s[i + 1..]
  {
    if s == "" then -1
    else if s[|s| - 1] == c then |s| - 1
    else
      assert s == s[..|s| - 1] + [s[|s| - 1]];
      LastIndexOf(s[..|s| - 1], c)
  }

  function DropLeading(s: string, c: char): string {
    if s != "" && s[0] == c then DropLeading(s[1..], c) else s
  }

  function DropTrailing(s: string, c: char): string {
    if s != "" && s[|s| - 1] == c then DropTrailing(s[..|s| - 1], c) else s
  }

  /** The host used by the private-address guard: everything before the last
      colon, without brackets. */
  function GuardedHost(target: string): string {
    var i := LastIndexOf(target, ':');
    var host := if i >= 0 then target[..i] else target;
    DropTrailing(DropLeading(host, '['), ']')
  }

  lemma LastIndexUnique(s: string, c: char, i: nat)
    requires i < |s| && s[i] == c && c !in s[i + 1..]
    ensures LastIndexOf(s, c) == i
  {
    var j := LastIndexOf(s, c);
    assert forall k :: i < k < |s| ==> s[k] == s[i + 1..][k - i - 1];
    assert forall k :: j < k < |s| ==> s[k] == s[j + 1..][k - j - 1];
  }

  lemma PortText(port: nat)
    ensures ':' !in Decimal(port)
  {
    assert forall c :: c in Decimal(port) ==> IsDigit(c);
  }

  /** The guard reads back the host that was printed, for names and for IPv6
      literals; the routing reads it back exactly when it holds no colon. */
  lemma PrintedTargetReadBack(host: string, port: nat)
    requires '[' !in host && ']' !in host
    ensures GuardedHost(Target(host, port)) == host
    ensures RoutingHost(Target(host, port)) == host <==> ':' !in host
  {
    PortText(port);
    hide Decimal;
    var text := Decimal(port);
    if ':' in host {
      BracketedTarget(host, text);
    } else {
      PlainTarget(host, text);
    }
  }

  /** The port is what stands behind the last colon. */
  lemma PrintedPortReadBack(host: string, port: nat)
    requires port < 0x1_0000
    ensures var target := Target(host, port); var i := LastIndexOf(target, ':');
            i >= 0 && ParseUnsigned(target[i + 1..], 0x1_0000) == Some(port)
  {
    PortText(port);
    ParsePrintedNumber(port, 0x1_0000);
    hide Decimal, ParseUnsigned;
    var target, text := Target(host, port), Decimal(port);
    var before := if ':' in host then "[" + host + "]" else host;
    assert target == before + ":" + text && target[|before| + 1..] == text;
    LastIndexUnique(target, ':', |before|);
  }

  lemma PlainTarget(host: string, port: string)
    requires '[' !in host && ']' !in host && ':' !in host && ':' !in port
    ensures GuardedHost(host + ":" + port) == host
    ensures RoutingHost(host + ":" + port) == host
  {
    var target := host + ":" + port;
    assert target[..|host|] == host && target[|host| + 1..] == port;
    LastIndexUnique(target, ':', |host|);
    IndexOfUnique(target, ':', |host|);
  }

  lemma BracketedTarget(host: string, port: string)
    requires '[' !in host && ']' !in host && ':' in host && ':' !in port
    ensures GuardedHost("[" + host + "]:" + port) == host
    ensures RoutingHost("[" + host + "]:" + port) != host
  {
    hide DropLeading, DropTrailing, LastIndexOf, IndexOf;
    var target, bracketed := "[" + host + "]:" + port, "[" + host + "]";
    assert target[..|host| + 2] == bracketed && target[|host| + 3..] == port;
    LastIndexUnique(target, ':', |host| + 2);
    Unbracket(host);
    var i := IndexOf(target, ':');
    assert i > 0 && Split(target, ':')[0] == target[..i];
    assert target[..i][0] == '[';
  }

  lemma Unbracket(host: string)
    requires host != "" && '[' !in host && ']' !in host
    ensures DropTrailing(DropLeading("[" + host + "]", '['), ']') == host
  {
    var inner := host + "]";
    assert ("[" + host + "]")[1..] == inner && inner[0] == host[0] && host[0] in host;
    assert DropLeading("[" + host + "]", '[') == inner;
    assert inner[..|inner| - 1] == host && host[|host| - 1] in host;
  }

  // ---- the routing decision ------------------------------------------------

  /** `Panics` is a slice from byte 6 that lies past the end of the directive or
      inside a character. */
  datatype Route = Direct | Via(proxy: string) | Panics

  /** The bytes of a character in UTF-8. */
  function Width(c: char): nat {
    if (c as int) < 0x80 then 1 else if (c as int) < 0x800 then 2 else if (c as int) < 0x1_0000 then 3 else 4
  }

  function ByteLength(s: string): nat {
    if s == "" then 0 else Width(s[0]) + ByteLength(s[1..])
  }

  /** Slicing a text from a byte offset: what is left when `offset` bytes are whole
      characters, and no result otherwise. */
  function SliceFrom(s: string, offset: nat): Option<string>
    decreases |s|
  {
    if offset == 0 then Some(s)
    else if s == "" || Width(s[0]) > offset then None
    else SliceFrom(s[1..], offset - Width(s[0]))
  }

  /** The first directive of a PAC answer. */
  function PacRoute(answer: string): Route {
    var first := Trim(Split(answer, ';')[0]);
    if !StartsWith(first, "PROXY") then Direct
    else
      match SliceFrom(first, 6)
      case None => Panics
      case Some(rest) => Via(Trim(rest))
  }

  /** A byte slice is what its name says: the text from the only character
      boundary at that offset, if there is one. */
  lemma {:induction false} SliceAtBoundary(s: string, offset: nat)
    ensures SliceFrom(s, offset).None? ==> forall k :: 0 <= k <= |s| ==> ByteLength(s[..k]) != offset
    ensures SliceFrom(s, offset).Some? ==>
              var k := |s| - |SliceFrom(s, offset).value|;
              0 <= k && SliceFrom(s, offset).value == s[k..] && ByteLength(s[..k]) == offset
    decreases |s|
  {
    hide Width;
    if s != "" {
      var w := WidthOf(s[0]);
      if w <= offset {
        SliceAtBoundary(s[1..], offset - w);
      }
      forall k | 0 < k <= |s|
        ensures ByteLength(s[..k]) == w + ByteLength(s[1..][..k - 1])
      {
        assert s[..k][1..] == s[1..][..k - 1];
      }
    }
  }

  lemma WidthOf(c: char) returns (w: nat)
    ensures w == Width(c) > 0
  {
    w := Width(c);
  }

  /** Behind the keyword the slice drops one character if that is an ASCII one. */
  lemma SliceAfterKeyword(first: string)
    requires StartsWith(first, "PROXY")
    ensures SliceFrom(first, 6) == if |first| > 5 && Width(first[5]) == 1 then Some(first[6..]) else None
  {
    hide SliceFrom;
    var keyword, rest := "PROXY", first[5..];
    assert first == keyword + rest;
    AsciiSkipped(keyword, rest, 6);
    LastByte(rest);
  }

  lemma {:induction false} AsciiSkipped(ascii: string, rest: string, offset: nat)
    requires offset >= |ascii| && forall i :: 0 <= i < |ascii| ==> Width(ascii[i]) == 1
    ensures SliceFrom(ascii + rest, offset) == SliceFrom(rest, offset - |ascii|)
  {
    if ascii == "" {
      assert ascii + rest == rest;
    } else {
      assert (ascii + rest)[1..] == ascii[1..] + rest;
      AsciiSkipped(ascii[1..], rest, offset - 1);
    }
  }

  lemma LastByte(s: string)
    ensures SliceFrom(s, 1) == if s != "" && Width(s[0]) == 1 then Some(s[1..]) else None
  {
  }

  function Fallback(upstream: Option<string>): Route {
    match upstream case None => Direct case Some(proxy) => Via(proxy)
  }

  /** A PAC engine answers for a url and a host, or fails. */
  type PacEngine = (string, string) -> Result<string, string>

  function ResolveProxy(
    target: string, exceptions: Option<Index>, pac: Option<PacEngine>, upstream: Option<string>): Route
  {
    var host := RoutingHost(target);
    if exceptions.Some? && Matches(exceptions.value, host) then Direct
    else if pac.None? then Fallback(upstream)
    else
      match pac.value("https://" + target + "/", host)
      case Err(_) => Fallback(upstream)
      case Ok(answer) => PacRoute(answer)
  }

  /** The url a PAC engine is asked for. */
  function HttpsUrl(host: string, port: nat): string {
    if ':' in host then "https://[" + host + "]:" + Decimal(port) + "/" else "https://" + host + ":" + Decimal(port) + "/"
  }

  /** The name a host is routed under: itself, or what is left of an IPv6 literal. */
  function RoutedName(host: string): string {
    if ':' in host then FirstGroup(host) else host
  }

  /** Some pattern of the list matches the host. */
  ghost predicate Exempt(exceptions: Option<Index>, host: string) {
    exceptions.Some? && Scan(exceptions.value.hosts, host)
  }

  /** From the exception list to the route, for every host. One whose name
      some pattern matches is reached directly, whatever PAC and upstream say. For
      any other, without a PAC engine or with one that fails for the host and its
      https url, the configured upstream decides. */
  lemma RouteWithoutAnswer(
    host: string, port: nat, exceptions: Option<Index>, pac: Option<PacEngine>, upstream: Option<string>)
    requires exceptions.Some? ==> Compiled(exceptions.value)
    ensures var route := ResolveProxy(Target(host, port), exceptions, pac, upstream);
            && (Exempt(exceptions, RoutedName(host)) ==> route == Direct)
            && (!Exempt(exceptions, RoutedName(host)) ==>
                  pac.None? || pac.value(HttpsUrl(host, port), RoutedName(host)).Err? ==>
                    && (forall u :: upstream == Some(u) ==> route == Via(u))
                    && (upstream == None ==> route == Direct))
  {
    hide RoutingHost, Target, Matches, Scan, PacRoute, Compiled, HttpsUrl, RoutedName;
    HostAndUrl(host, port);
    if exceptions.Some? {
      LookupIsScan(exceptions.value, RoutedName(host));
    }
  }

  lemma HostAndUrl(host: string, port: nat)
    ensures RoutingHost(Target(host, port)) == RoutedName(host)
    ensures "https://" + Target(host, port) + "/" == HttpsUrl(host, port)
  {
    UrlOfTarget(host, port);
    hide RoutingHost, Target, HttpsUrl, FirstGroup;
    if ':' in host {
      RoutingHostOfLiteral(host, port);
    } else {
      PrintedTargetOfName(host, port);
    }
  }

  lemma {:induction false} UrlOfTarget(host: string, port: nat)
    ensures "https://" + Target(host, port) + "/" == HttpsUrl(host, port)
  {
    hide Decimal;
    var scheme, text := "https://", Decimal(port);
    assert scheme + ("[" + host + "]:" + text) == scheme + "[" + host + "]:" + text;
    assert scheme + (host + ":" + text) == scheme + host + ":" + text;
    assert scheme + "[" == "https://[";
  }

  lemma {:induction false} PrintedTargetOfName(host: string, port: nat)
    requires ':' !in host
    ensures RoutingHost(Target(host, port)) == host
  {
    PortText(port);
    hide Decimal;
    var text := Decimal(port);
    assert (host + ":" + text)[..|host|] == host && (host + ":" + text)[|host| + 1..] == text;
    IndexOfUnique(host + ":" + text, ':', |host|);
  }

  /** A PAC answer for a host that no pattern matches: a first directive that does
      not begin with PROXY means a direct connection; one that is PROXY, white
      space and an address means that address; the configured upstream is not
      asked. */
  lemma RouteByAnswer(
    host: string, port: nat, exceptions: Option<Index>, pac: PacEngine, upstream: Option<string>,
    first: string, others: string)
    requires (exceptions.Some? ==> Compiled(exceptions.value)) && !Exempt(exceptions, RoutedName(host))
    requires ';' !in first && (others == "" || others[0] == ';')
    requires pac(HttpsUrl(host, port), RoutedName(host)) == Ok(first + others)
    ensures var route := ResolveProxy(Target(host, port), exceptions, Some(pac), upstream);
            && (!StartsWith(Trim(first), "PROXY") ==> route == Direct)
            && (forall space, address ::
                  IsSpace(space) && address != "" && Trimmed(address) && Trim(first) == "PROXY" + [space] + address ==>
                    route == Via(address))
  {
    hide RoutingHost, Target, Matches, Scan, Compiled, HttpsUrl, RoutedName, Trim, SliceFrom, Split;
    HostAndUrl(host, port);
    FirstDirective(first, others);
    if exceptions.Some? {
      LookupIsScan(exceptions.value, RoutedName(host));
    }
    forall space, address |
      IsSpace(space) && address != "" && Trimmed(address) && Trim(first) == "PROXY" + [space] + address
      ensures PacRoute(first + others) == Via(address)
    {
      var text := "PROXY" + [space] + address;
      assert text[..5] == "PROXY" && text[5] == space && text[6..] == address;
      SliceAfterKeyword(text);
    }
  }

  /** The answers that panic: those whose first directive is a bare "PROXY", or
      goes on after the keyword with a character of more than one byte. */
  lemma PanicsExactlyWhen(
    target: string, exceptions: Option<Index>, pac: Option<PacEngine>, upstream: Option<string>)
    ensures ResolveProxy(target, exceptions, pac, upstream) == Panics
       <==> (&& !(exceptions.Some? && Matches(exceptions.value, RoutingHost(target)))
             && pac.Some? && pac.value("https://" + target + "/", RoutingHost(target)).Ok?
             && var answer := pac.value("https://" + target + "/", RoutingHost(target)).value;
                var first := Trim(Split(answer, ';')[0]);
                StartsWith(first, "PROXY") && (|first| == 5 || first[5] as int >= 128))
  {
    hide Matches, RoutingHost, Split, Trim, SliceFrom;
    if pac.Some? && pac.value("https://" + target + "/", RoutingHost(target)).Ok? {
      var first := Trim(Split(pac.value("https://" + target + "/", RoutingHost(target)).value, ';')[0]);
      if StartsWith(first, "PROXY") {
        SliceAfterKeyword(first);
      }
    }
  }

  /** A PROXY directive gives back the address after the keyword exactly when a
      white space follows the keyword: that one character is always dropped. */
  lemma PacAddressReadBack(rest: string, others: string)
    requires rest != "" && ';' !in rest && !IsSpace(rest[|rest| - 1])
    requires others == "" || others[0] == ';'
    ensures PacRoute("PROXY" + rest + others) == Via(Trim(rest)) <==> IsSpace(rest[0])
  {
    var answer, first := "PROXY" + rest + others, "PROXY" + rest;
    SliceAfterKeyword(first);
    hide Split, Trim, SliceFrom;
    FirstDirective(first, others);
    assert Trimmed(first) && first[..5] == "PROXY" && first[6..] == rest[1..];
    if IsSpace(rest[0]) {
      LeadingSpaceDrops(rest);
    } else {
      assert Trimmed(rest);
      TrimShortens(rest[1..]);
    }
  }

  lemma FirstDirective(first: string, others: string)
    requires ';' !in first && (others == "" || others[0] == ';')
    ensures Split(first + others, ';')[0] == first
  {
    assert (first + others)[..|first|] == first;
    IndexOfUnique(first + others, ';', |first|);
  }

  lemma LeadingSpaceDrops(s: string)
    requires s != "" && IsSpace(s[0])
    ensures Trim(s[1..]) == Trim(s)
  {
  }

  lemma TrimShortens(s: string)
    ensures |Trim(s)| <= |s|
  {
  }

  /** The text before the first colon of an IPv6 literal, as the routing sees it. */
  function FirstGroup(host: string): string {
    "[" + host[..IndexOf(host, ':')]
  }

  lemma RoutingHostOfLiteral(host: string, port: nat)
    requires ':' in host
    ensures RoutingHost(Target(host, port)) == FirstGroup(host)
    ensures ':' !in FirstGroup(host) && (']' !in host ==> ']' !in FirstGroup(host))
  {
    hide Decimal;
    var target, i := Target(host, port), IndexOf(host, ':');
    assert target[..i + 1] == FirstGroup(host) && target[i + 1] == host[i];
    IndexOfUnique(target, ':', i + 1);
  }

  /** An IPv6 literal is exempt exactly when the list names its first group behind
      an opening bracket, as in "[2001"; wildcards and every other pattern make no
      difference. The first group of an IPv6 literal holds no dot. */
  lemma Ipv6ExemptExactlyWhen(host: string, port: nat, exceptions: Index)
    requires ':' in host && Compiled(exceptions)
    requires '.' !in host[..IndexOf(host, ':')] || forall p :: p in exceptions.hosts ==> !IsWildcard(p)
    ensures Matches(exceptions, RoutingHost(Target(host, port))) <==> FirstGroup(host) in exceptions.hosts
  {
    RoutingHostOfLiteral(host, port);
    LookupIsScan(exceptions, FirstGroup(host));
    hide RoutingHost, Target, Matches, Compiled;
    forall p | p in exceptions.hosts
      ensures IsWildcard(p) && SuffixMatches(p[1..], FirstGroup(host)) ==> '.' in FirstGroup(host)
    {
      WildcardNeedsDot(p, FirstGroup(host));
    }
    hide IsWildcard, SuffixMatches;
    assert PatternMatches(FirstGroup(host), FirstGroup(host));
  }

  lemma WildcardNeedsDot(pattern: string, host: string)
    ensures IsWildcard(pattern) && SuffixMatches(pattern[1..], host) ==> '.' in host
  {
    if IsWildcard(pattern) && SuffixMatches(pattern[1..], host) {
      assert pattern[..2][1] == '.' && pattern[1..][0] == '.';
      assert host[|host| - |pattern[1..]|..][0] == '.';
    }
  }

  /** So no name and no spelling of the literal exempts it, with or without
      brackets and port: only a pattern with an opening bracket, no colon and no
      closing bracket can. */
  lemma Ipv6NeverExemptByName(host: string, port: nat, exceptions: Index)
    requires ':' in host && Compiled(exceptions)
    requires '.' !in host[..IndexOf(host, ':')] || forall p :: p in exceptions.hosts ==> !IsWildcard(p)
    requires forall p :: p in exceptions.hosts ==>
               ':' in p || '[' !in p || IsWildcard(p) || (']' in p && ']' !in host)
    ensures !Matches(exceptions, RoutingHost(Target(host, port)))
  {
    GroupIsNoWildcard(host);
    hide IsWildcard, RoutingHost, Target, Matches, Compiled, FirstGroup, IndexOf;
    RoutingHostOfLiteral(host, port);
    Ipv6ExemptExactlyWhen(host, port, exceptions);
  }

  lemma GroupIsNoWildcard(host: string)
    ensures !IsWildcard(FirstGroup(host)) && '[' in FirstGroup(host)
  {
    hide IndexOf;
    assert FirstGroup(host)[0] == '[' && (|FirstGroup(host)| >= 2 ==> FirstGroup(host)[..2][0] == '[');
  }

  // ---- instances -----------------------------------------------------------

  /** The loopback literal is routed as a single bracket. */
  lemma LoopbackHost()
    ensures RoutingHost(Target("::1", 80)) == "["
  {
    RoutingHostOfLiteral("::1", 80);
    assert IndexOf("::1", ':') == 0;
  }

  /** The shortest answer that panics. */
  lemma BareProxyPanics()
    ensures PacRoute("PROXY") == Panics
  {
    var answer := "PROXY";
    IndexOfUnique(answer, ';', |answer|);
    assert Trimmed(answer);
    SliceAfterKeyword(answer);
    hide SliceFrom, Trim;
  }
}
