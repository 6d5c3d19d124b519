/**
 The text operations of Rust's `str` that the program relies on, for ASCII text:
 trimming, splitting into lines, words and fields, case-insensitive comparison,
 unsigned decimal numbers, and the byte order on strings.
 */
module Text {
  import opened Wrappers

  const CRLF: string := "\r\n"

  // ---- white space ---------------------------------------------------------

  predicate IsSpace(c: char) {
    c == ' ' || '\t' <= c <= '\r'
  }

  /** No white space at either end. */
  predicate Trimmed(s: string) {
    s == "" || (!IsSpace(s[0]) && !IsSpace(s[|s| - 1]))
  }

  /** No carriage return and no line feed. */
  predicate Clean(s: string) {
    '\r' !in s && '\n' !in s
  }

  function TrimStart(s: string): (r: string)
    ensures |r| <= |s| && r == s[|s| - |r|..]
    ensures r == "" || !IsSpace(r[0])
    ensures forall i :: 0 <= i < |s| - |r| ==> IsSpace(s[i])
  {
    if s != "" && IsSpace(s[0]) then TrimStart(s[1..]) else s
  }

  function TrimEnd(s: string): (r: string)
    ensures |r| <= |s| && r == s[..|r|]
    ensures r == "" || !IsSpace(r[|r| - 1])
    ensures forall i :: |r| <= i < |s| ==> IsSpace(s[i])
  {
    if s != "" && IsSpace(s[|s| - 1]) then TrimEnd(s[..|s| - 1]) else s
  }

  function Trim(s: string): (r: string)
    ensures Trimmed(r)
    ensures Trimmed(s) ==> r == s
  {
    TrimEnd(TrimStart(s))
  }

  /** One leading space makes no difference to the trimmed text. */
  lemma TrimAfterSpace(s: string)
    ensures Trim(" " + s) == Trim(s)
  {
    assert (" " + s)[1..] == s;
  }

  predicate Blank(s: string) {
    forall i :: 0 <= i < |s| ==> IsSpace(s[i])
  }

  lemma {:induction false} TrimStartDrops(before: string, rest: string)
    requires Blank(before) && (rest == "" || !IsSpace(rest[0]))
    ensures TrimStart(before + rest) == rest
  {
    if before == "" {
      assert before + rest == rest;
    } else {
      assert (before + rest)[1..] == before[1..] + rest;
      TrimStartDrops(before[1..], rest);
    }
  }

  lemma {:induction false} TrimEndDrops(rest: string, after: string)
    requires Blank(after) && (rest == "" || !IsSpace(rest[|rest| - 1]))
    ensures TrimEnd(rest + after) == rest
  {
    if after == "" {
      assert rest + after == rest;
    } else {
      assert (rest + after)[..|rest + after| - 1] == rest + after[..|after| - 1];
      TrimEndDrops(rest, after[..|after| - 1]);
    }
  }

  /** Trimming is the only way to take white space off both ends. */
  lemma TrimUnique(before: string, middle: string, after: string)
    requires Blank(before) && Trimmed(middle) && Blank(after)
    ensures Trim(before + middle + after) == middle
  {
    hide TrimStart, TrimEnd;
    if middle == "" {
      TrimStartDrops(before + after, "");
      TrimEndDrops("", "");
      assert before + middle + after == before + after + "" && "" + "" == "";
    } else {
      TrimStartDrops(before, middle + after);
      TrimEndDrops(middle, after);
      assert before + middle + after == before + (middle + after);
    }
  }

  lemma TrimParts(s: string) returns (before: string, after: string)
    ensures Blank(before) && Blank(after) && s == before + Trim(s) + after
  {
    hide TrimStart, TrimEnd;
    var t := TrimStart(s);
    before, after := s[..|s| - |t|], t[|TrimEnd(t)|..];
  }

  lemma TrimEmptyMeansBlank(s: string)
    ensures Trim(s) == "" <==> Blank(s)
  {
    hide Trim;
    var before, after := TrimParts(s);
    assert Trim(s) == "" ==> s == before + after;
    if Blank(s) {
      TrimUnique(s, "", "");
      assert s + "" + "" == s;
    }
  }

  /** White space at the end makes no difference to the trimmed text. */
  lemma TrimBeforeSpace(s: string, space: string)
    requires Blank(space)
    ensures Trim(s + space) == Trim(s)
  {
    hide Trim;
    var before, after := TrimParts(s);
    assert s + space == before + Trim(s) + (after + space);
    TrimUnique(before, Trim(s), after + space);
  }

  // ---- searching and splitting ---------------------------------------------

  /** The position of the first `c`, or the length of `s` when there is none. */
  function IndexOf(s: string, c: char): (i: nat)
    ensures i <= |s|
    ensures c !in s[..i]
    ensures i < |s| ==> s[i] == c
  {
    if s == "" || s[0] == c then 0 else 1 + IndexOf(s[1..], c)
  }

  lemma IndexOfUnique(s: string, c: char, i: nat)
    requires i <= |s| && c !in s[..i] && (i < |s| ==> s[i] == c)
    ensures IndexOf(s, c) == i
  {
  }

  /** `split(c)`: the pieces between the separators, at least one. */
  function Split(s: string, c: char): (pieces: seq<string>)
    ensures |pieces| > 0
    decreases |s|
  {
    var i := IndexOf(s, c);
    if i == |s| then [s] else [s[..i]] + Split(s[i + 1..], c)
  }

  function StripCr(line: string): string {
    if line != "" && line[|line| - 1] == '\r' then line[..|line| - 1] else line
  }

  /** `lines()`: split at line feeds, dropping one carriage return before each
      and the empty piece after a final line feed. */
  function Lines(s: string): (lines: seq<string>)
    ensures lines == [] <==> s == ""
    decreases |s|
  {
    var i := IndexOf(s, '\n');
    if s == "" then []
    else if i == |s| then [s]
    else [StripCr(s[..i])] + Lines(s[i + 1..])
  }

  /** A line that ends in a bare line feed, or in nothing, is taken as it stands. */
  lemma LinesOfBareFeed(line: string, rest: string)
    requires '\r' !in line && '\n' !in line
    ensures Lines(line + "\n" + rest) == [line] + Lines(rest)
    ensures line != "" ==> Lines(line) == [line]
  {
    var text := line + "\n" + rest;
    assert text[..|line|] == line && text[|line| + 1..] == rest;
    IndexOfUnique(text, '\n', |line|);
    assert line[..|line|] == line;
    IndexOfUnique(line, '\n', |line|);
    assert line != "" ==> line[|line| - 1] in line;
  }

  function WordLength(s: string): (n: nat)
    ensures n <= |s|
    ensures s != "" && !IsSpace(s[0]) ==> n > 0
  {
    if s == "" || IsSpace(s[0]) then 0 else 1 + WordLength(s[1..])
  }

  /** `split_whitespace()`. */
  function Words(s: string): seq<string>
    decreases |s|
  {
    var t := TrimStart(s);
    if t == "" then [] else [t[..WordLength(t)]] + Words(t[WordLength(t)..])
  }

  predicate StartsWith(s: string, prefix: string) {
    |prefix| <= |s| && s[..|prefix|] == prefix
  }

  predicate EndsWith(s: string, suffix: string) {
    |suffix| <= |s| && s[|s| - |suffix|..] == suffix
  }

  // ---- letter case ---------------------------------------------------------

  function Lower(c: char): char {
    if 'A' <= c <= 'Z' then (c as int + 32) as char else c
  }

  predicate EqIgnoreCase(a: string, b: string) {
    |a| == |b| && forall i :: 0 <= i < |a| ==> Lower(a[i]) == Lower(b[i])
  }

  lemma EqIgnoreCaseConcat(a: string, b: string, c: string, d: string)
    requires |a| == |c|
    ensures EqIgnoreCase(a + b, c + d) <==> EqIgnoreCase(a, c) && EqIgnoreCase(b, d)
  {
    if EqIgnoreCase(a + b, c + d) {
      assert forall i :: 0 <= i < |a| ==> (a + b)[i] == a[i] && (c + d)[i] == c[i];
      assert forall i :: 0 <= i < |b| ==> (a + b)[|a| + i] == b[i] && (c + d)[|a| + i] == d[i];
    }
  }

  // ---- unsigned decimal numbers --------------------------------------------

  predicate IsDigit(c: char) {
    '0' <= c <= '9'
  }

  predicate AllDigits(s: string) {
    forall c :: c in s ==> IsDigit(c)
  }

  function Value(s: string): nat
    requires AllDigits(s)
  {
    if s == "" then 0
    else
      assert IsDigit(s[|s| - 1]);
      10 * Value(s[..|s| - 1]) + (s[|s| - 1] as int - '0' as int)
  }

  /** `parse()` for an unsigned type whose values are below `limit`: an optional
      plus sign, then one or more digits, without overflow. */
  function ParseUnsigned(s: string, limit: nat): (r: Option<nat>)
    ensures r.Some? ==> r.value < limit
  {
    var digits := if s != "" && s[0] == '+' then s[1..] else s;
    if digits == "" || !AllDigits(digits) || Value(digits) >= limit then None
    else Some(Value(digits))
  }

  function DigitChar(d: nat): (c: char)
    requires d < 10
    ensures IsDigit(c) && c as int - '0' as int == d
  {
    (d + '0' as int) as char
  }

  function Decimal(n: nat): (s: string)
    ensures s != "" && AllDigits(s)
  {
    if n < 10 then [DigitChar(n)] else Decimal(n / 10) + [DigitChar(n % 10)]
  }

  lemma {:induction false} ValueOfDecimal(n: nat)
    ensures Value(Decimal(n)) == n
  {
    if n >= 10 {
      ValueOfDecimal(n / 10);
      assert Decimal(n)[..|Decimal(n)| - 1] == Decimal(n / 10);
    } else {
      assert Decimal(n)[..0] == "";
    }
  }

  /** Printing an unsigned number and parsing it gives it back when it fits, and
      an overflow error when it does not. */
  lemma ParsePrintedNumber(n: nat, limit: nat)
    ensures ParseUnsigned(Decimal(n), limit) == if n < limit then Some(n) else None
  {
    ValueOfDecimal(n);
    assert Decimal(n)[0] in Decimal(n);
  }

  /** A plus sign makes no difference, a second one or a minus sign is no number. */
  lemma SignedNumber(n: nat, limit: nat)
    ensures ParseUnsigned("+" + Decimal(n), limit) == ParseUnsigned(Decimal(n), limit)
    ensures ParseUnsigned("-" + Decimal(n), limit) == ParseUnsigned("++" + Decimal(n), limit) == None
  {
    var digits := Decimal(n);
    assert digits[0] in digits;
    assert ("+" + digits)[1..] == digits && ("++" + digits)[1..] == "+" + digits;
    assert '-' in "-" + digits && '+' in "+" + digits;
  }

  // ---- the byte order on strings -------------------------------------------

  predicate LexLess(a: string, b: string) {
    b != "" && (a == "" || a[0] < b[0] || (a[0] == b[0] && LexLess(a[1..], b[1..])))
  }

  /** With equally long first parts, the second parts decide only a tie. */
  lemma {:induction false} LexLessConcat(a: string, b: string, c: string, d: string)
    requires |a| == |c|
    ensures LexLess(a + b, c + d) <==> LexLess(a, c) || (a == c && LexLess(b, d))
  {
    if a == "" {
      assert a + b == b && c + d == d;
    } else {
      LexLessConcat(a[1..], b, c[1..], d);
      assert (a + b)[1..] == a[1..] + b && (c + d)[1..] == c[1..] + d;
      assert a == [a[0]] + a[1..] && c == [c[0]] + c[1..];
    }
  }

  /** On digit strings of one length the byte order is the numeric order. */
  lemma {:induction false} LexLessIsNumeric(a: string, b: string)
    requires |a| == |b| && AllDigits(a) && AllDigits(b)
    ensures LexLess(a, b) <==> Value(a) < Value(b)
    ensures a == b <==> Value(a) == Value(b)
  {
    if a != "" {
      var n := |a| - 1;
      assert a == a[..n] + [a[n]] && b == b[..n] + [b[n]];
      LexLessIsNumeric(a[..n], b[..n]);
      LexLessConcat(a[..n], [a[n]], b[..n], [b[n]]);
      assert IsDigit(a[n]) && IsDigit(b[n]);
    }
  }
}
