/**
 The exception list: patterns compiled into a set of exact names and a list of
 suffixes, against the plain scan over the patterns.
 */
module Exceptions {
  import opened Text

  datatype Index = Index(hosts: seq<string>, exact: set<string>, suffixes: seq<string>)

  predicate IsWildcard(pattern: string) {
    StartsWith(pattern, "*.")
  }

  /** The compiled form of a pattern list. */
  ghost predicate Compiled(index: Index) {
    && (forall name :: name in index.exact <==> name in index.hosts && !IsWildcard(name))
    && (forall suffix :: suffix in index.suffixes <==> exists p :: p in index.hosts && IsWildcard(p) && suffix == p[1..])
  }

  method NewIndex(hosts: seq<string>) returns (index: Index)
    ensures index.hosts == hosts && Compiled(index)
    ensures index.suffixes == SuffixesOf(hosts)
  {
    hide IsWildcard;
    var exact: set<string>, suffixes: seq<string> := {}, [];
    for i := 0 to |hosts|
      invariant forall name :: name in exact <==> name in hosts[..i] && !IsWildcard(name)
      invariant suffixes == SuffixesOf(hosts[..i])
    {
      var h := hosts[i];
      assert hosts[..i + 1] == hosts[..i] + [h];
      SuffixesSnoc(hosts[..i], h);
      if IsWildcard(h) {
        suffixes := suffixes + [Tail(h)];
      } else {
        exact := exact + {h};
      }
    }
    assert hosts[..|hosts|] == hosts;
    index := Index(hosts, exact, suffixes);
    SuffixesMembers(hosts);
  }

  /** A wildcard without its star: "*.example.com" gives ".example.com". */
  function Tail(pattern: string): string
    requires IsWildcard(pattern)
  {
    pattern[1..]
  }

  function SuffixesOf(hosts: seq<string>): seq<string> {
    if hosts == [] then []
    else (if IsWildcard(hosts[0]) then [Tail(hosts[0])] else []) + SuffixesOf(hosts[1..])
  }

  lemma {:induction false} SuffixesSnoc(hosts: seq<string>, h: string)
    ensures SuffixesOf(hosts + [h]) == SuffixesOf(hosts) + (if IsWildcard(h) then [Tail(h)] else [])
  {
    hide IsWildcard, Tail;
    if hosts == [] {
      assert hosts + [h] == [h];
    } else {
      assert (hosts + [h])[1..] == hosts[1..] + [h];
      SuffixesSnoc(hosts[1..], h);
    }
  }

  lemma {:induction false} SuffixesMembers(hosts: seq<string>)
    ensures forall suffix :: suffix in SuffixesOf(hosts) <==>
              exists p :: p in hosts && IsWildcard(p) && suffix == p[1..]
  {
    if hosts != [] {
      SuffixesMembers(hosts[1..]);
      assert forall p :: p in hosts <==> p == hosts[0] || p in hosts[1..];
    }
  }

  /** The fast lookup. */
  predicate Matches(index: Index, host: string) {
    || host in index.exact
    || exists i :: 0 <= i < |index.suffixes| && SuffixMatches(index.suffixes[i], host)
  }

  predicate SuffixMatches(suffix: string, host: string) {
    |host| > |suffix| && EndsWith(host, suffix)
  }

  // ---- the plain scan ------------------------------------------------------

  /** The meaning of one pattern: the host itself, or `*.s` and a host strictly
      longer than `.s` that ends in it. */
  predicate PatternMatches(pattern: string, host: string) {
    pattern == host || (IsWildcard(pattern) && SuffixMatches(pattern[1..], host))
  }

  /** In plain words: the pattern is the host, or it is a star, a dot and a
      domain, and the host is something in front of that dot and domain. */
  lemma PatternMeaning(pattern: string, host: string)
    ensures PatternMatches(pattern, host)
       <==> pattern == host
            || exists domain, front :: pattern == "*." + domain && front != "" && host == front + "." + domain
  {
    if IsWildcard(pattern) && SuffixMatches(pattern[1..], host) {
      var domain, front := pattern[2..], host[..|host| - |pattern| + 1];
      assert pattern == pattern[..2] + domain && pattern[1..] == "." + domain;
      assert host == front + host[|front|..] == front + ("." + domain) == front + "." + domain;
    }
    forall domain, front | pattern == "*." + domain && front != "" && host == front + "." + domain
      ensures IsWildcard(pattern) && SuffixMatches(pattern[1..], host)
    {
      assert pattern[..2] == "*." && pattern[1..] == "." + domain;
      assert host == front + ("." + domain) && host[|front|..] == "." + domain;
    }
  }

  ghost predicate Scan(hosts: seq<string>, host: string) {
    exists p :: p in hosts && PatternMatches(p, host)
  }

  /** The compiled lookup agrees with the scan, for every list and every host. */
  lemma LookupIsScan(index: Index, host: string)
    requires Compiled(index)
    ensures Matches(index, host) <==> Scan(index.hosts, host)
  {
    if Matches(index, host) {
      if host in index.exact {
        assert PatternMatches(host, host);
      } else {
        var i :| 0 <= i < |index.suffixes| && SuffixMatches(index.suffixes[i], host);
        assert index.suffixes[i] in index.suffixes;
        var p :| p in index.hosts && IsWildcard(p) && index.suffixes[i] == p[1..];
        assert PatternMatches(p, host);
      }
    }
    if Scan(index.hosts, host) {
      var p :| p in index.hosts && PatternMatches(p, host);
      if IsWildcard(p) {
        var suffix := p[1..];
        assert suffix in index.suffixes;
        var i :| 0 <= i < |index.suffixes| && index.suffixes[i] == suffix;
        WildcardMatchesItself(p, host);
      }
    }
  }

  /** A host spelled like a wildcard is still matched by that wildcard. */
  lemma WildcardMatchesItself(pattern: string, host: string)
    requires IsWildcard(pattern) && PatternMatches(pattern, host)
    ensures SuffixMatches(pattern[1..], host)
  {
    if pattern == host {
      assert host[|host| - |pattern[1..]|..] == pattern[1..];
    }
  }

  /** Order and repetition of the patterns do not matter. */
  lemma OnlyTheSetOfPatternsCounts(a: Index, b: Index, host: string)
    requires Compiled(a) && Compiled(b)
    requires forall p :: p in a.hosts <==> p in b.hosts
    ensures Matches(a, host) <==> Matches(b, host)
  {
    LookupIsScan(a, host);
    LookupIsScan(b, host);
  }

  /** Joining two lists matches what either of them matches. */
  lemma DistributesOverConcatenation(a: Index, b: Index, both: Index, host: string)
    requires Compiled(a) && Compiled(b) && Compiled(both) && both.hosts == a.hosts + b.hosts
    ensures Matches(both, host) <==> Matches(a, host) || Matches(b, host)
  {
    LookupIsScan(a, host);
    LookupIsScan(b, host);
    LookupIsScan(both, host);
    hide PatternMatches, Matches;
    assert forall p :: p in both.hosts <==> p in a.hosts || p in b.hosts;
  }
}
