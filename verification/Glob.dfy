/**
 Shell patterns in PAC scripts: runs of stars are collapsed before the pattern
 goes to the glob library.
 */
module Glob {
  /** Only the first star of each run is kept. */
  function Collapse(pattern: string): string {
    if |pattern| < 2 then pattern
    else if pattern[0] == '*' && pattern[1] == '*' then Collapse(pattern[1..])
    else [pattern[0]] + Collapse(pattern[1..])
  }

  /** The meaning of a pattern without bracket classes: `*` matches any text, `?`
      any one character, every other character itself. */
  predicate Matches(pattern: string, text: string)
    decreases |pattern| + |text|
  {
    if pattern == "" then text == ""
    else if pattern[0] == '*' then
      Matches(pattern[1..], text) || (text != "" && Matches(pattern, text[1..]))
    else
      text != "" && (pattern[0] == '?' || pattern[0] == text[0]) && Matches(pattern[1..], text[1..])
  }

  /** The library's own matching of patterns with bracket classes, where a
      pattern may also be rejected. */
  type ClassMatcher = (string, string) -> bool

  /** What the library answers for a pattern whose stars are single. */
  predicate LibraryMatches(classes: ClassMatcher, pattern: string, text: string) {
    if '[' in pattern then classes(pattern, text) else Matches(pattern, text)
  }

  method GlobMatch(classes: ClassMatcher, pattern: string, text: string) returns (matched: bool)
    ensures matched == LibraryMatches(classes, Collapse(pattern), text)
    ensures '[' !in pattern ==> matched == Matches(pattern, text)
  {
    var collapsed, lastWasStar := "", false;
    for i := 0 to |pattern|
      invariant collapsed == Collapse(pattern[..i])
      invariant lastWasStar <==> i > 0 && pattern[i - 1] == '*'
    {
      var c := pattern[i];
      assert pattern[..i + 1] == pattern[..i] + [c];
      CollapseSnoc(pattern[..i], c);
      if c == '*' {
        if !lastWasStar {
          collapsed := collapsed + [c];
          lastWasStar := true;
        }
      } else {
        collapsed := collapsed + [c];
        lastWasStar := false;
      }
    }
    assert pattern[..|pattern|] == pattern;
    CollapseKeepsMeaning(pattern, text);
    CollapseKeepsCharacters(pattern);
    matched := LibraryMatches(classes, collapsed, text);
  }

  /** One more character: a star after a star is dropped, anything else is kept. */
  lemma {:induction false} CollapseSnoc(pattern: string, c: char)
    ensures Collapse(pattern + [c])
         == if c == '*' && pattern != "" && pattern[|pattern| - 1] == '*' then Collapse(pattern)
            else Collapse(pattern) + [c]
  {
    if |pattern| == 1 {
      assert (pattern + [c])[1..] == [c];
    } else if |pattern| > 1 {
      assert (pattern + [c])[1..] == pattern[1..] + [c];
      CollapseSnoc(pattern[1..], c);
    }
  }

  // ---- meaning -------------------------------------------------------------

  /** A leading star means: the rest of the pattern matches some suffix. */
  lemma {:induction false} StarMatches(rest: string, text: string)
    ensures Matches("*" + rest, text) <==> exists k :: 0 <= k <= |text| && Matches(rest, text[k..])
    decreases |text|
  {
    assert ("*" + rest)[1..] == rest && text[0..] == text;
    if text != "" {
      StarMatches(rest, text[1..]);
      assert forall k :: 0 <= k <= |text| - 1 ==> text[1..][k..] == text[k + 1..];
      if exists k :: 0 <= k <= |text| && Matches(rest, text[k..]) {
        var k :| 0 <= k <= |text| && Matches(rest, text[k..]);
        if k > 0 {
          assert text[1..][k - 1..] == text[k..];
        }
      }
    }
  }

  /** A second star adds nothing. */
  lemma {:induction false} DoubleStar(rest: string, text: string)
    ensures Matches("*" + ("*" + rest), text) <==> Matches("*" + rest, text)
    decreases |text|
  {
    var one := "*" + rest;
    var two := "*" + one;
    assert two[1..] == one;
    if text != "" {
      DoubleStar(rest, text[1..]);
      assert one[0] == '*';
    }
  }

  /** Replacing the rest of a pattern by one of the same meaning. */
  lemma {:induction false} SameMeaningUnder(c: char, a: string, b: string, text: string)
    requires forall t :: Matches(a, t) <==> Matches(b, t)
    ensures Matches([c] + a, text) <==> Matches([c] + b, text)
    decreases |text|
  {
    assert ([c] + a)[1..] == a && ([c] + b)[1..] == b;
    if c == '*' && text != "" {
      SameMeaningUnder(c, a, b, text[1..]);
    }
  }

  /** Collapsing preserves the pattern's meaning, for every pattern and text. */
  lemma {:induction false} CollapseKeepsMeaning(pattern: string, text: string)
    ensures Matches(Collapse(pattern), text) <==> Matches(pattern, text)
    decreases |pattern|
  {
    if |pattern| >= 2 {
      var rest := pattern[1..];
      forall t
        ensures Matches(Collapse(rest), t) <==> Matches(rest, t)
      {
        CollapseKeepsMeaning(rest, t);
      }
      if pattern[0] == '*' && pattern[1] == '*' {
        var tail := pattern[2..];
        assert rest == "*" + tail && pattern == "*" + rest;
        DoubleStar(tail, text);
      } else {
        assert pattern == [pattern[0]] + rest;
        SameMeaningUnder(pattern[0], Collapse(rest), rest, text);
      }
    }
  }

  // ---- shape ---------------------------------------------------------------

  predicate NoDoubleStar(pattern: string) {
    forall i :: 0 <= i < |pattern| - 1 ==> !(pattern[i] == '*' && pattern[i + 1] == '*')
  }

  lemma {:induction false} CollapseHead(pattern: string)
    ensures pattern != "" ==> Collapse(pattern) != "" && Collapse(pattern)[0] == pattern[0]
  {
    if |pattern| >= 2 && pattern[0] == '*' && pattern[1] == '*' {
      CollapseHead(pattern[1..]);
    }
  }

  lemma TailHasNoDoubleStar(pattern: string)
    requires pattern != "" && NoDoubleStar(pattern)
    ensures NoDoubleStar(pattern[1..])
  {
    var rest := pattern[1..];
    forall i | 0 <= i < |rest| - 1
      ensures !(rest[i] == '*' && rest[i + 1] == '*')
    {
      assert rest[i] == pattern[i + 1];
    }
  }

  /** The result has no two adjacent stars, and a pattern without adjacent stars
      is left alone; so collapsing twice is collapsing once. */
  lemma {:induction false} CollapseNormalises(pattern: string)
    ensures NoDoubleStar(Collapse(pattern))
    ensures NoDoubleStar(pattern) <==> Collapse(pattern) == pattern
    ensures |Collapse(pattern)| <= |pattern|
  {
    if |pattern| >= 2 {
      var rest := pattern[1..];
      CollapseNormalises(rest);
      CollapseHead(rest);
      if pattern[0] == '*' && pattern[1] == '*' {
        assert !NoDoubleStar(pattern);
      } else {
        var c := Collapse(pattern);
        assert forall i :: 1 <= i < |c| ==> c[i] == Collapse(rest)[i - 1];
        assert pattern == [pattern[0]] + rest;
        if NoDoubleStar(pattern) {
          TailHasNoDoubleStar(pattern);
        }
      }
    }
  }

  lemma {:induction false} CollapseIdempotent(pattern: string)
    ensures Collapse(Collapse(pattern)) == Collapse(pattern)
  {
    hide Collapse;
    CollapseNormalises(pattern);
    CollapseNormalises(Collapse(pattern));
  }

  lemma {:induction false} CollapseKeepsCharacters(pattern: string)
    ensures forall c :: c in Collapse(pattern) <==> c in pattern
  {
    if |pattern| >= 2 {
      CollapseKeepsCharacters(pattern[1..]);
      assert forall c :: c in pattern <==> c == pattern[0] || c in pattern[1..];
    }
  }
}
