/**
 Readers for raw HTTP header blocks, and the shape of the blocks they read.
 */
module HttpUtils {
  import opened Wrappers
  import opened Text

  const TERMINATOR: string := "\r\n\r\n"
  const USIZE_LIMIT: nat := 0x1_0000_0000_0000_0000

  // ---- substring search ----------------------------------------------------

  predicate OccursAt(haystack: string, needle: string, i: int) {
    0 <= i && i + |needle| <= |haystack| && haystack[i..i + |needle|] == needle
  }

  /** The first occurrence of `needle`, if there is one. */
  function FindSubsequence(haystack: string, needle: string): (r: Option<nat>)
    ensures r.Some? ==> OccursAt(haystack, needle, r.value)
    ensures r.Some? ==> forall i :: OccursAt(haystack, needle, i) ==> r.value <= i
    ensures r.None? ==> forall i :: !OccursAt(haystack, needle, i)
  {
    FindFrom(haystack, needle, 0)
  }

  function FindFrom(haystack: string, needle: string, start: nat): (r: Option<nat>)
    requires forall i :: OccursAt(haystack, needle, i) ==> start <= i
    ensures r.Some? ==> OccursAt(haystack, needle, r.value)
    ensures r.Some? ==> forall i :: OccursAt(haystack, needle, i) ==> r.value <= i
    ensures r.None? ==> forall i :: !OccursAt(haystack, needle, i)
    decreases |haystack| - start
  {
    if start + |needle| > |haystack| then None
    else if haystack[start..start + |needle|] == needle then Some(start)
    else FindFrom(haystack, needle, start + 1)
  }

  predicate HasTerminator(s: string) {
    FindSubsequence(s, TERMINATOR).Some?
  }

  /** A complete header block: the terminator is there, for the first time, at
      the very end. */
  predicate HeaderBlock(head: string) {
    |head| >= 4 && FindSubsequence(head, TERMINATOR) == Some(|head| - 4)
  }

  /** A header block stays a complete block whatever follows it. */
  lemma TerminatorAfterBlock(head: string, rest: string)
    requires HeaderBlock(head)
    ensures FindSubsequence(head + rest, TERMINATOR) == Some(|head| - 4)
  {
    var whole := head + rest;
    assert OccursAt(whole, TERMINATOR, |head| - 4);
    forall i | OccursAt(whole, TERMINATOR, i)
      ensures |head| - 4 <= i
    {
      if i < |head| - 4 {
        assert whole[i..i + 4] == head[i..i + 4];
        assert OccursAt(head, TERMINATOR, i);
      }
    }
  }

  /** No proper prefix of a block followed by anything holds the terminator. */
  lemma NoTerminatorBeforeBlockEnd(head: string, rest: string, n: nat)
    requires HeaderBlock(head) && n <= |head + rest|
    ensures HasTerminator((head + rest)[..n]) <==> |head| <= n
  {
    var whole := head + rest;
    TerminatorAfterBlock(head, rest);
    if |head| <= n {
      assert whole[..n][|head| - 4..|head|] == whole[|head| - 4..|head|];
      assert OccursAt(whole[..n], TERMINATOR, |head| - 4);
    } else if HasTerminator(whole[..n]) {
      var i := FindSubsequence(whole[..n], TERMINATOR).value;
      assert whole[..n][i..i + 4] == whole[i..i + 4];
      assert OccursAt(whole, TERMINATOR, i);
    }
  }

  /** What follows a block does not change its first line. */
  lemma FirstLineOfBlock(head: string, more: string)
    requires HeaderBlock(head)
    ensures Lines(head) != [] && Lines(head + more) != [] && Lines(head + more)[0] == Lines(head)[0]
  {
    assert OccursAt(head, TERMINATOR, |head| - 4);
    assert head[|head| - 3] == head[|head| - 4..][1] == TERMINATOR[1] == '\n';
    var i := IndexOf(head, '\n');
    assert head[..|head|] == head && '\n' in head;
    assert i < |head| && (head + more)[..i] == head[..i];
    IndexOfUnique(head + more, '\n', i);
  }

  // ---- header readers ------------------------------------------------------

  /** The declared body length; 0 when the header is absent or malformed. */
  function ParseContentLength(headers: string): nat {
    ContentLengthIn(Lines(headers))
  }

  function ContentLengthIn(lines: seq<string>): nat {
    if lines == [] then 0
    else if IsContentLengthLine(lines[0]) && |Split(lines[0], ':')| > 1 then
      match ParseUnsigned(Trim(Split(lines[0], ':')[1]), USIZE_LIMIT)
      case Some(n) => n
      case None => 0
    else ContentLengthIn(lines[1..])
  }

  predicate IsContentLengthLine(line: string) {
    |line| >= 15 && EqIgnoreCase(line[..15], "content-length:")
  }

  /** The value of the first header named `key`, in any letter case. */
  function FindHeaderValue(headers: string, key: string): Option<string> {
    HeaderIn(Lines(headers), key)
  }

  function HeaderIn(lines: seq<string>, key: string): Option<string> {
    if lines == [] then None
    else if IsHeaderLine(lines[0], key) then Some(Trim(lines[0][|key| + 1..]))
    else HeaderIn(lines[1..], key)
  }

  predicate IsHeaderLine(line: string, key: string) {
    |line| > |key| && line[|key|] == ':' && EqIgnoreCase(line[..|key|], key)
  }

  // ---- printed blocks ------------------------------------------------------

  /** Each line with its line end, then an empty line: the printed header block. */
  function Block(lines: seq<string>): string {
    if lines == [] then CRLF else lines[0] + CRLF + Block(lines[1..])
  }

  /** A line that can stand in a block: not empty, no line break inside. */
  predicate BlockLine(line: string) {
    line != "" && Clean(line)
  }

  predicate BlockLines(lines: seq<string>) {
    forall line :: line in lines ==> BlockLine(line)
  }

  /** Reading the lines of a printed block gives back the lines printed. */
  lemma {:induction false} LinesOfBlock(lines: seq<string>)
    requires BlockLines(lines)
    ensures Lines(Block(lines)) == lines + [""]
  {
    hide Lines, StripCr, IndexOf;
    if lines == [] {
      LinesOfFirst("", "");
      assert "" + CRLF + "" == Block(lines);
    } else {
      assert lines[0] in lines;
      LinesOfFirst(lines[0], Block(lines[1..]));
      LinesOfBlock(lines[1..]);
      assert lines + [""] == [lines[0]] + (lines[1..] + [""]);
    }
  }

  lemma LinesOfFirst(line: string, rest: string)
    requires Clean(line)
    ensures Lines(line + CRLF + rest) == [line] + Lines(rest)
  {
    var text, i := line + CRLF + rest, |line| + 1;
    assert text[..i] == line + "\r" && text[i + 1..] == rest;
    IndexOfUnique(text, '\n', i);
    assert StripCr(line + "\r") == line;
  }

  lemma {:induction false} BlockEndsInTerminator(lines: seq<string>)
    requires lines != []
    ensures |Block(lines)| >= 4 && OccursAt(Block(lines), TERMINATOR, |Block(lines)| - 4)
  {
    hide OccursAt;
    if |lines| == 1 {
      OccursAtEnd(lines[0], TERMINATOR);
      assert lines[0] + TERMINATOR == lines[0] + CRLF + Block([]);
    } else {
      BlockEndsInTerminator(lines[1..]);
      OccursAfter(lines[0] + CRLF, Block(lines[1..]), TERMINATOR, |Block(lines[1..])| - 4);
    }
  }

  lemma OccursAtEnd(before: string, needle: string)
    ensures OccursAt(before + needle, needle, |before|)
  {
  }

  lemma OccursAfter(before: string, haystack: string, needle: string, i: int)
    requires 0 <= i
    ensures OccursAt(haystack, needle, i) <==> OccursAt(before + haystack, needle, |before| + i)
  {
    if i + |needle| <= |haystack| {
      assert (before + haystack)[|before| + i..|before| + i + |needle|] == haystack[i..i + |needle|];
    }
  }

  /** A printed block holds the terminator exactly once, at its end. */
  lemma {:induction false} TerminatorOnlyAtEnd(lines: seq<string>, i: int)
    requires lines != [] && BlockLines(lines)
    ensures OccursAt(Block(lines), TERMINATOR, i) <==> i == |Block(lines)| - 4
  {
    BlockEndsInTerminator(lines);
    var line, tail := lines[0], Block(lines[1..]);
    var whole := line + CRLF + tail;
    assert line in lines;
    if |lines| > 1 {
      assert lines[1] in lines && tail[0] == lines[1][0];
    }
    if OccursAt(whole, TERMINATOR, i) {
      assert forall k :: 0 <= k < 4 ==> whole[i + k] == whole[i..i + 4][k] == TERMINATOR[k];
      assert whole[i] == '\r' && whole[i + 2] == '\r';
      assert i >= |line| && i != |line| + 1;
      if i == |line| {
        // a second line end straight after the first: only at the block's end
        assert tail[0] == '\r';
      } else {
        OccursAfter(line + CRLF, tail, TERMINATOR, i - |line| - 2);
        TerminatorOnlyAtEnd(lines[1..], i - |line| - 2);
      }
    }
  }

  lemma BlockIsHeaderBlock(lines: seq<string>)
    requires lines != [] && BlockLines(lines)
    ensures HeaderBlock(Block(lines))
  {
    BlockEndsInTerminator(lines);
    forall i | OccursAt(Block(lines), TERMINATOR, i)
      ensures i == |Block(lines)| - 4
    {
      TerminatorOnlyAtEnd(lines, i);
    }
  }

  // ---- printed fields ------------------------------------------------------

  datatype Field = Field(name: string, value: string)

  function FieldLine(f: Field): string {
    f.name + ": " + f.value
  }

  function FieldLines(fields: seq<Field>): (lines: seq<string>)
    ensures |lines| == |fields|
  {
    if fields == [] then [] else [FieldLine(fields[0])] + FieldLines(fields[1..])
  }

  /** A token, section 5.6.2 of RFC 9110: letters, digits and `!#$%&'*+-.^_`|~`. */
  predicate TokenChar(c: char) {
    || 'a' <= c <= 'z' || 'A' <= c <= 'Z' || '0' <= c <= '9'
    || c == '!' || '#' <= c <= '\'' || c == '*' || c == '+' || c == '-' || c == '.'
    || '^' <= c <= '`' || c == '|' || c == '~'
  }

  predicate IsToken(s: string) {
    s != "" && forall i :: 0 <= i < |s| ==> TokenChar(s[i])
  }

  lemma TokenHasNoDelimiter(s: string)
    requires IsToken(s)
    ensures ':' !in s && ' ' !in s && Clean(s)
  {
  }

  predicate PrintableField(f: Field) {
    IsToken(f.name) && Clean(f.value)
  }

  predicate PrintableFields(fields: seq<Field>) {
    forall f :: f in fields ==> PrintableField(f)
  }

  /** The reference meaning of a lookup: the first field with that name. */
  function FirstField(fields: seq<Field>, key: string): Option<string> {
    if fields == [] then None
    else if EqIgnoreCase(fields[0].name, key) then Some(fields[0].value)
    else FirstField(fields[1..], key)
  }

  lemma FieldLineIsBlockLine(f: Field)
    requires PrintableField(f)
    ensures BlockLine(FieldLine(f))
  {
    TokenHasNoDelimiter(f.name);
  }

  /** A printed field is found under a key exactly when the names agree, and
      then its value comes back trimmed. */
  lemma FieldLineLookup(name: string, value: string, key: string)
    requires ':' !in name && ':' !in key
    ensures var line := FieldLine(Field(name, value));
            && (IsHeaderLine(line, key) <==> EqIgnoreCase(name, key))
            && (EqIgnoreCase(name, key) ==> Trim(line[|key| + 1..]) == Trim(value))
  {
    var line := name + ": " + value;
    if |key| < |name| {
      assert line[|key|] == name[|key|];
    } else if |name| < |key| {
      if |key| < |line| {
        assert line[..|key|][|name|] == ':' && key[|name|] != ':';
        assert Lower(key[|name|]) != Lower(line[..|key|][|name|]);
      }
    } else {
      assert line[..|key|] == name && line[|key| + 1..] == " " + value;
      TrimAfterSpace(value);
    }
  }

  lemma EmptyLineIsNoHeader(key: string)
    ensures !IsHeaderLine("", key)
  {
  }

  /** Looking a name up in printed fields gives the trimmed value of the first
      field with that name, and nothing when there is none. */
  lemma {:induction false} HeaderInPrintedFields(fields: seq<Field>, key: string)
    requires PrintableFields(fields) && IsToken(key)
    ensures BlockLines(FieldLines(fields))
    ensures HeaderIn(FieldLines(fields) + [""], key)
         == match FirstField(fields, key) case None => None case Some(v) => Some(Trim(v))
  {
    hide IsHeaderLine, EqIgnoreCase, Trim, TokenChar, FieldLine;
    if fields == [] {
      EmptyLineIsNoHeader(key);
      assert HeaderIn([""], key) == HeaderIn([""][1..], key);
    } else {
      var f, rest := fields[0], FieldLines(fields[1..]);
      assert f in fields && PrintableFields(fields[1..]);
      TokenHasNoDelimiter(f.name);
      TokenHasNoDelimiter(key);
      FieldLineLookup(f.name, f.value, key);
      FieldLineIsBlockLine(f);
      HeaderInPrintedFields(fields[1..], key);
      var lines := [FieldLine(f)] + rest + [""];
      assert lines[1..] == rest + [""];
    }
  }

  /** A printed request: the request line, the fields, the empty line. */
  function RequestBlock(verb: string, rest: string, fields: seq<Field>): string {
    Block([verb + " " + rest] + FieldLines(fields))
  }

  /** No header lookup ever matches a request line. */
  lemma RequestLineIsNoHeader(verb: string, rest: string, key: string)
    requires ':' !in verb && ' ' !in key
    ensures !IsHeaderLine(verb + " " + rest, key)
  {
    var line := verb + " " + rest;
    if |key| < |verb| {
      assert line[|key|] == verb[|key|];
    } else if |verb| < |key| <= |line| {
      assert line[..|key|][|verb|] == ' ' && key[|verb|] != ' ';
      assert Lower(key[|verb|]) != Lower(' ');
    }
  }

  /** A printed request is one header block, and a lookup in it gives the
      trimmed value of the first printed field of that name. */
  lemma RequestReadBack(verb: string, rest: string, fields: seq<Field>, key: string)
    requires IsToken(verb) && Clean(rest) && PrintableFields(fields) && IsToken(key)
    ensures HeaderBlock(RequestBlock(verb, rest, fields))
    ensures FindHeaderValue(RequestBlock(verb, rest, fields), key)
         == match FirstField(fields, key) case None => None case Some(v) => Some(Trim(v))
  {
    hide TokenChar, Lines, Block, Trim, EqIgnoreCase, HeaderBlock, FirstField, IsHeaderLine, FieldLines;
    TokenHasNoDelimiter(verb);
    TokenHasNoDelimiter(key);
    HeaderInPrintedFields(fields, key);
    RequestLineIsNoHeader(verb, rest, key);
    var lines := [verb + " " + rest] + FieldLines(fields);
    BlockIsHeaderBlock(lines);
    LinesOfBlock(lines);
    assert (lines + [""])[1..] == FieldLines(fields) + [""];
  }

  /** The text before the first `c` and the text after it tell where it was. */
  lemma FirstSeparator(a: string, b: string, a': string, b': string, c: char)
    requires c !in a && c !in a' && a + [c] + b == a' + [c] + b'
    ensures a == a' && b == b'
  {
    var text := a + [c] + b;
    assert text[..|a|] == a && text[|a| + 1..] == b && text[..|a'|] == a' && text[|a'| + 1..] == b';
    IndexOfUnique(text, c, |a|);
    IndexOfUnique(text, c, |a'|);
  }

  lemma {:induction false} FieldLinesInjective(a: seq<Field>, b: seq<Field>)
    requires PrintableFields(a) && PrintableFields(b) && FieldLines(a) == FieldLines(b)
    ensures a == b
  {
    hide TokenChar;
    if a != [] {
      assert a[0] in a && b[0] in b && PrintableFields(a[1..]) && PrintableFields(b[1..]);
      assert FieldLine(a[0]) == FieldLines(a)[0] == FieldLine(b[0]);
      SameFieldLine(a[0], b[0]);
      assert FieldLines(a)[1..] == FieldLines(a[1..]) && FieldLines(b)[1..] == FieldLines(b[1..]);
      FieldLinesInjective(a[1..], b[1..]);
      assert a == [a[0]] + a[1..] && b == [b[0]] + b[1..];
    }
  }

  lemma SameFieldLine(f: Field, g: Field)
    requires IsToken(f.name) && IsToken(g.name) && FieldLine(f) == FieldLine(g)
    ensures f == g
  {
    TokenHasNoDelimiter(f.name);
    TokenHasNoDelimiter(g.name);
    hide TokenChar;
    assert FieldLine(f) == f.name + [':'] + (" " + f.value) && FieldLine(g) == g.name + [':'] + (" " + g.value);
    FirstSeparator(f.name, " " + f.value, g.name, " " + g.value, ':');
    assert (" " + f.value)[1..] == f.value && (" " + g.value)[1..] == g.value;
  }

  /** No two requests print alike: the verb, the rest of the request line and
      every field, repeated names included, can be told from the printed text. */
  lemma RequestTextInjective(
    verb: string, rest: string, fields: seq<Field>, verb': string, rest': string, fields': seq<Field>)
    requires IsToken(verb) && Clean(rest) && PrintableFields(fields)
    requires IsToken(verb') && Clean(rest') && PrintableFields(fields')
    requires RequestBlock(verb, rest, fields) == RequestBlock(verb', rest', fields')
    ensures verb == verb' && rest == rest' && fields == fields'
  {
    PrintedLines(verb, rest, fields);
    PrintedLines(verb', rest', fields');
    TokenHasNoDelimiter(verb);
    TokenHasNoDelimiter(verb');
    hide TokenChar, Lines, RequestBlock;
    var lines, lines' := Lines(RequestBlock(verb, rest, fields)), Lines(RequestBlock(verb', rest', fields'));
    assert lines[0] == verb + [' '] + rest && lines'[0] == verb' + [' '] + rest';
    FirstSeparator(verb, rest, verb', rest', ' ');
    assert lines[1..|lines| - 1] == FieldLines(fields) && lines'[1..|lines'| - 1] == FieldLines(fields');
    FieldLinesInjective(fields, fields');
  }

  lemma PrintedLines(verb: string, rest: string, fields: seq<Field>)
    requires IsToken(verb) && Clean(rest) && PrintableFields(fields)
    ensures Lines(RequestBlock(verb, rest, fields)) == [verb + " " + rest] + FieldLines(fields) + [""]
  {
    TokenHasNoDelimiter(verb);
    HeaderInPrintedFields(fields, verb);
    hide TokenChar, Lines, Block;
    LinesOfBlock([verb + " " + rest] + FieldLines(fields));
  }

  /** The program's reading of a printed Content-Length field is the number
      printed: the field is the first of that name in the block. */
  lemma ContentLengthOfPrinted(before: seq<string>, name: string, n: nat, after: seq<string>)
    requires BlockLines(before) && BlockLines(after)
    requires forall line :: line in before ==> !IsContentLengthLine(line)
    requires EqIgnoreCase(name, "content-length") && IsToken(name) && n < USIZE_LIMIT
    ensures ParseContentLength(Block(before + [FieldLine(Field(name, Decimal(n)))] + after)) == n
  {
    var value := Decimal(n);
    DecimalText(n);
    TokenHasNoDelimiter(name);
    ContentLengthFieldLine(name, value);
    FieldPieces(name, value);
    ParsePrintedNumber(n, USIZE_LIMIT);
    ContentLengthAt(before, FieldLine(Field(name, value)), after);
  }

  /** Without a content-length line the length is 0. */
  lemma NoContentLength(headers: string)
    requires forall line :: line in Lines(headers) ==> !IsContentLengthLine(line)
    ensures ParseContentLength(headers) == 0
  {
    hide Lines, IsContentLengthLine;
    ContentLengthSkips(Lines(headers), []);
    assert Lines(headers) + [] == Lines(headers);
  }

  /** The first content-length line of a block decides: the number between its
      colon and the next one, and 0 when that is no number that fits. */
  lemma ContentLengthAt(before: seq<string>, line: string, after: seq<string>)
    requires BlockLines(before + [line] + after)
    requires forall l :: l in before ==> !IsContentLengthLine(l)
    requires IsContentLengthLine(line) && |Split(line, ':')| > 1
    ensures ParseContentLength(Block(before + [line] + after))
         == match ParseUnsigned(Trim(Split(line, ':')[1]), USIZE_LIMIT) case Some(n) => n case None => 0
  {
    var lines, rest := before + [line] + after, [line] + after + [""];
    LinesOfBlock(lines);
    assert lines + [""] == before + rest;
    ContentLengthSkips(before, rest);
  }

  lemma ContentLengthFieldLine(name: string, value: string)
    requires EqIgnoreCase(name, "content-length") && IsToken(name) && Clean(value)
    ensures BlockLine(FieldLine(Field(name, value)))
    ensures IsContentLengthLine(FieldLine(Field(name, value)))
  {
    FieldLineIsBlockLine(Field(name, value));
    var line := FieldLine(Field(name, value));
    var key := "content-length";
    assert line[..15] == name + ":" && key + ":" == "content-length:";
    assert EqIgnoreCase(name + ":", key + ":");
  }

  lemma FieldPieces(name: string, value: string)
    requires ':' !in name && ':' !in value && Trimmed(value)
    ensures var pieces := Split(FieldLine(Field(name, value)), ':');
            |pieces| == 2 && Trim(pieces[1]) == value
  {
    hide Split, Trim, Trimmed;
    SplitAtOnlyColon(name, " " + value);
    assert name + ":" + (" " + value) == FieldLine(Field(name, value));
    TrimAfterSpace(value);
  }

  lemma DecimalText(n: nat)
    ensures Clean(Decimal(n)) && ':' !in Decimal(n) && Trimmed(Decimal(n))
  {
    var value := Decimal(n);
    assert forall c :: c in value ==> IsDigit(c);
    assert value[0] in value && value[|value| - 1] in value;
  }

  lemma SplitAtOnlyColon(a: string, b: string)
    requires ':' !in a && ':' !in b
    ensures Split(a + ":" + b, ':') == [a, b]
  {
    var line := a + ":" + b;
    assert line[..|a|] == a && line[|a| + 1..] == b;
    IndexOfUnique(line, ':', |a|);
    IndexOfUnique(b, ':', |b|);
  }

  lemma {:induction false} ContentLengthSkips(before: seq<string>, rest: seq<string>)
    requires forall line :: line in before ==> !IsContentLengthLine(line)
    ensures ContentLengthIn(before + rest) == ContentLengthIn(rest)
  {
    if before == [] {
      assert before + rest == rest;
    } else {
      assert (before + rest)[1..] == before[1..] + rest;
      ContentLengthSkips(before[1..], rest);
    }
  }
}
