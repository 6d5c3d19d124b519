/**
 Plain HTTP on the wire: the request printer and the response splitter.
 */
module ProxyWire {
  import opened Wrappers
  import opened Text
  import opened HttpUtils
  import opened AuthTunnel

  /** A growable byte buffer the caller owns. */
  class Buffer {
    var bytes: string

    constructor (bytes: string)
      ensures this.bytes == bytes
    {
      this.bytes := bytes;
    }

    method Extend(more: string)
      modifies this
      ensures bytes == old(bytes) + more
    {
      bytes := bytes + more;
    }

    /** Remove the first `n` bytes; the rest moves to the front. */
    method Drain(n: nat)
      requires n <= |bytes|
      modifies this
      ensures bytes == old(bytes)[n..]
    {
      bytes := bytes[n..];
    }
  }

  // ---- requests ------------------------------------------------------------

  datatype Request = Request(verb: string, uri: string, requestTarget: string, headers: seq<Field>)

  /** A header value that can be read as text: visible ASCII and tabs. */
  predicate IsVisible(value: string) {
    forall i :: 0 <= i < |value| ==> ' ' <= value[i] <= '~' || value[i] == '\t'
  }

  /** The headers that are printed: those whose value is text. */
  function VisibleFields(headers: seq<Field>): (fields: seq<Field>)
    ensures forall f :: f in fields ==> f in headers && IsVisible(f.value)
  {
    if headers == [] then []
    else (if IsVisible(headers[0].value) then [headers[0]] else []) + VisibleFields(headers[1..])
  }

  function Credentials(basicAuth: Option<string>): seq<Field> {
    match basicAuth case None => [] case Some(b64) => [Field("Proxy-Authorization", "Basic " + b64)]
  }

  function PrintedFields(req: Request, basicAuth: Option<string>): seq<Field> {
    VisibleFields(req.headers) + Credentials(basicAuth)
  }

  function RequestText(req: Request, absoluteForm: bool, basicAuth: Option<string>): string {
    RequestBlock(req.verb, (if absoluteForm then req.uri else req.requestTarget) + " HTTP/1.1",
                 PrintedFields(req, basicAuth))
  }

  /** Lines with their line ends, without the empty line that closes a block. */
  function Joined(lines: seq<string>): string {
    if lines == [] then "" else lines[0] + CRLF + Joined(lines[1..])
  }

  lemma BlockIsJoined(lines: seq<string>)
    ensures Block(lines) == Joined(lines) + CRLF
  {
    if lines != [] {
      BlockIsJoined(lines[1..]);
      assert lines[0] + CRLF + (Joined(lines[1..]) + CRLF) == lines[0] + CRLF + Joined(lines[1..]) + CRLF;
    }
  }

  lemma JoinedSnoc(lines: seq<string>, last: string)
    ensures Joined(lines + [last]) == Joined(lines) + last + CRLF
  {
    if lines == [] {
      assert lines + [last] == [last];
      assert Joined([last]) == last + CRLF + Joined([]);
    } else {
      assert (lines + [last])[1..] == lines[1..] + [last];
      JoinedSnoc(lines[1..], last);
    }
  }

  lemma FieldLinesSnoc(fields: seq<Field>, last: Field)
    ensures FieldLines(fields + [last]) == FieldLines(fields) + [FieldLine(last)]
  {
    hide FieldLine;
    if fields == [] {
      assert fields + [last] == [last];
    } else {
      assert (fields + [last])[1..] == fields[1..] + [last];
      FieldLinesSnoc(fields[1..], last);
    }
  }

  lemma {:induction false} VisibleSnoc(headers: seq<Field>, last: Field)
    ensures VisibleFields(headers + [last])
         == VisibleFields(headers) + (if IsVisible(last.value) then [last] else [])
  {
    hide IsVisible;
    if headers == [] {
      assert headers + [last] == [last];
    } else {
      assert (headers + [last])[1..] == headers[1..] + [last];
      VisibleSnoc(headers[1..], last);
    }
  }

  /** Everything printed before the closing empty line. */
  function Printed(start: string, fields: seq<Field>): string {
    Joined([start] + FieldLines(fields))
  }

  lemma PrintedSnoc(start: string, fields: seq<Field>, last: Field)
    ensures Printed(start, fields + [last])
         == Printed(start, fields) + (last.name + ": " + last.value + CRLF)
  {
    FieldLinesSnoc(fields, last);
    JoinedSnoc([start] + FieldLines(fields), FieldLine(last));
    assert [start] + FieldLines(fields + [last]) == [start] + FieldLines(fields) + [FieldLine(last)];
  }

  lemma PrintedStart(start: string)
    ensures Printed(start, []) == start + CRLF
  {
    assert [start] + [] == [start];
    assert Joined([start]) == start + CRLF + Joined([]);
  }

  function RequestLine(req: Request, absoluteForm: bool): string {
    req.verb + " " + ((if absoluteForm then req.uri else req.requestTarget) + " HTTP/1.1")
  }

  method WriteRequestLine(out: Buffer, req: Request, absoluteForm: bool)
    modifies out
    ensures out.bytes == old(out.bytes) + (RequestLine(req, absoluteForm) + CRLF)
  {
    out.Extend(req.verb);
    out.Extend(" ");
    if absoluteForm {
      out.Extend(req.uri);
    } else {
      out.Extend(req.requestTarget);
    }
    out.Extend(" HTTP/1.1\r\n");
  }

  method WriteField(out: Buffer, name: string, value: string)
    modifies out
    ensures out.bytes == old(out.bytes) + (name + ": " + value + CRLF)
  {
    out.Extend(name);
    out.Extend(": ");
    out.Extend(value);
    out.Extend("\r\n");
  }

  method WriteHttpRequest(out: Buffer, req: Request, absoluteForm: bool, basicAuth: Option<string>)
    modifies out
    ensures out.bytes == old(out.bytes) + RequestText(req, absoluteForm, basicAuth)
  {
    hide *;
    ghost var before, start := out.bytes, RequestLine(req, absoluteForm);
    WriteRequestLine(out, req, absoluteForm);
    PrintedStart(start);
    NothingVisible();
    assert req.headers[..0] == [];
    for i := 0 to |req.headers|
      invariant out.bytes == before + Printed(start, VisibleFields(req.headers[..i]))
    {
      PrintedNext(start, req.headers, i);
      Associative(before, Printed(start, VisibleFields(req.headers[..i])),
                  req.headers[i].name + ": " + req.headers[i].value + CRLF);
      if IsVisible(req.headers[i].value) {
        WriteField(out, req.headers[i].name, req.headers[i].value);
      } else {
        NothingAdded(Printed(start, VisibleFields(req.headers[..i])));
      }
    }
    assert req.headers[..|req.headers|] == req.headers;
    ghost var fields, credentials := Printed(start, VisibleFields(req.headers)), CredentialText(basicAuth);
    PrintedRequest(req, absoluteForm, basicAuth);
    NoCredentials();
    NothingAdded(before + fields);
    if basicAuth.Some? {
      CredentialField(basicAuth.value);
      WriteField(out, "Proxy-Authorization", "Basic " + basicAuth.value);
    }
    out.Extend(CRLF);
    Associative(before, fields, credentials);
    Associative(before, fields + credentials, CRLF);
  }

  /** The credentials' part of the text. */
  function CredentialText(basicAuth: Option<string>): string {
    match basicAuth case None => "" case Some(b64) => "Proxy-Authorization" + ": " + ("Basic " + b64) + CRLF
  }

  lemma NoCredentials()
    ensures CredentialText(None) == ""
  {
  }

  lemma CredentialField(b64: string)
    ensures CredentialText(Some(b64)) == "Proxy-Authorization" + ": " + ("Basic " + b64) + CRLF
  {
  }

  lemma Associative(a: string, b: string, c: string)
    ensures a + b + c == a + (b + c)
  {
  }

  lemma NothingAdded(a: string)
    ensures a + "" == a
  {
  }

  /** What one header adds to the text. */
  lemma PrintedNext(start: string, headers: seq<Field>, i: nat)
    requires i < |headers|
    ensures Printed(start, VisibleFields(headers[..i + 1]))
         == Printed(start, VisibleFields(headers[..i]))
            + (if IsVisible(headers[i].value) then headers[i].name + ": " + headers[i].value + CRLF else "")
  {
    hide *;
    assert headers[..i + 1] == headers[..i] + [headers[i]];
    VisibleSnoc(headers[..i], headers[i]);
    if IsVisible(headers[i].value) {
      PrintedSnoc(start, VisibleFields(headers[..i]), headers[i]);
    } else {
      assert VisibleFields(headers[..i]) + [] == VisibleFields(headers[..i]);
    }
  }

  /** What the credentials and the empty line add. */
  lemma PrintedRequest(req: Request, absoluteForm: bool, basicAuth: Option<string>)
    ensures RequestText(req, absoluteForm, basicAuth)
         == Printed(RequestLine(req, absoluteForm), VisibleFields(req.headers)) + CredentialText(basicAuth) + CRLF
  {
    NoCredentials();
    hide *;
    PrintedIsBlock(req, absoluteForm, basicAuth);
    NothingAdded(Printed(RequestLine(req, absoluteForm), VisibleFields(req.headers)));
    if basicAuth.Some? {
      CredentialField(basicAuth.value);
      PrintedSnoc(RequestLine(req, absoluteForm), VisibleFields(req.headers),
                  Field("Proxy-Authorization", "Basic " + basicAuth.value));
    }
  }

  lemma NothingVisible()
    ensures VisibleFields([]) == []
  {
  }

  lemma PrintedIsBlock(req: Request, absoluteForm: bool, basicAuth: Option<string>)
    ensures RequestText(req, absoluteForm, basicAuth)
         == Printed(RequestLine(req, absoluteForm),
                    match basicAuth
                    case None => VisibleFields(req.headers)
                    case Some(b64) => VisibleFields(req.headers) + [Field("Proxy-Authorization", "Basic " + b64)])
            + CRLF
  {
    hide VisibleFields, Block, FieldLines, Joined;
    var visible := VisibleFields(req.headers);
    assert basicAuth.None? ==> PrintedFields(req, basicAuth) == visible;
    BlockIsJoined([RequestLine(req, absoluteForm)] + FieldLines(PrintedFields(req, basicAuth)));
  }

  /** What a parsed request gives: a token method, targets and credentials
      without line breaks, token names. Values may hold anything. */
  predicate WellFormed(req: Request, basicAuth: Option<string>) {
    && IsToken(req.verb) && Clean(req.uri) && Clean(req.requestTarget)
    && (forall f :: f in req.headers ==> IsToken(f.name))
    && (basicAuth.Some? ==> Clean(basicAuth.value))
  }

  /** The printed request is a single header block, so its terminator is found
      at its end and nowhere else; and looking up a name in it gives the trimmed
      value of the first printed header of that name, never the request line. */
  lemma RequestOnTheWire(req: Request, absoluteForm: bool, basicAuth: Option<string>, key: string)
    requires WellFormed(req, basicAuth) && IsToken(key)
    ensures var text := RequestText(req, absoluteForm, basicAuth);
            && FindSubsequence(text, TERMINATOR) == Some(|text| - 4)
            && FindHeaderValue(text, key)
            == match FirstField(PrintedFields(req, basicAuth), key) case None => None case Some(v) => Some(Trim(v))
  {
    hide PrintedFields, IsToken, FindHeaderValue, Trim, FirstField, RequestBlock, FindSubsequence, PrintableFields, Clean;
    PrintedFieldsArePrintable(req, basicAuth);
    TargetIsClean(req, absoluteForm, basicAuth);
    BlockOnTheWire(req.verb, (if absoluteForm then req.uri else req.requestTarget) + " HTTP/1.1",
                   PrintedFields(req, basicAuth), key);
  }

  lemma BlockOnTheWire(verb: string, rest: string, fields: seq<Field>, key: string)
    requires IsToken(verb) && Clean(rest) && PrintableFields(fields) && IsToken(key)
    ensures var text := RequestBlock(verb, rest, fields);
            && |text| >= 4 && FindSubsequence(text, TERMINATOR) == Some(|text| - 4)
            && FindHeaderValue(text, key)
            == match FirstField(fields, key) case None => None case Some(v) => Some(Trim(v))
  {
    hide IsToken, FindHeaderValue, Trim, FirstField, RequestBlock, FindSubsequence, PrintableFields, Clean;
    RequestReadBack(verb, rest, fields, key);
  }

  lemma TargetIsClean(req: Request, absoluteForm: bool, basicAuth: Option<string>)
    requires WellFormed(req, basicAuth)
    ensures Clean((if absoluteForm then req.uri else req.requestTarget) + " HTTP/1.1")
  {
    CleanConcat(if absoluteForm then req.uri else req.requestTarget, " HTTP/1.1");
  }

  /** Line by line, what is printed: the method, the absolute URI towards an
      upstream proxy or the origin form towards the server itself, and the version;
      then the client's readable headers, the credentials if there are any, and
      the empty line. */
  lemma RequestLines(req: Request, basicAuth: Option<string>)
    requires WellFormed(req, basicAuth)
    ensures var credentials := match basicAuth case None => [] case Some(b64) => ["Proxy-Authorization: Basic " + b64];
            var rest := FieldLines(VisibleFields(req.headers)) + credentials + [""];
            && Lines(RequestText(req, true, basicAuth)) == [req.verb + " " + req.uri + " HTTP/1.1"] + rest
            && Lines(RequestText(req, false, basicAuth)) == [req.verb + " " + req.requestTarget + " HTTP/1.1"] + rest
  {
    hide IsToken, Trim, FirstField, RequestBlock, PrintableFields, Clean, Lines, VisibleFields, FieldLines;
    PrintedFieldsArePrintable(req, basicAuth);
    TargetIsClean(req, true, basicAuth);
    TargetIsClean(req, false, basicAuth);
    CredentialLines(req, basicAuth);
    PrintedLines(req.verb, req.uri + " HTTP/1.1", PrintedFields(req, basicAuth));
    PrintedLines(req.verb, req.requestTarget + " HTTP/1.1", PrintedFields(req, basicAuth));
    assert req.verb + " " + (req.uri + " HTTP/1.1") == req.verb + " " + req.uri + " HTTP/1.1";
    assert req.verb + " " + (req.requestTarget + " HTTP/1.1") == req.verb + " " + req.requestTarget + " HTTP/1.1";
    hide PrintedFields;
  }

  lemma CredentialLines(req: Request, basicAuth: Option<string>)
    ensures FieldLines(PrintedFields(req, basicAuth))
         == FieldLines(VisibleFields(req.headers))
            + (match basicAuth case None => [] case Some(b64) => ["Proxy-Authorization: Basic " + b64])
  {
    hide VisibleFields, FieldLines;
    var visible := VisibleFields(req.headers);
    match basicAuth
    case None => assert visible + [] == visible;
    case Some(b64) =>
      var own := Field("Proxy-Authorization", "Basic " + b64);
      FieldLinesSnoc(visible, own);
      assert FieldLine(own) == "Proxy-Authorization: Basic " + b64;
  }

  /** A header value is readable when it is made of visible ASCII, spaces and tabs:
      codes 32 to 126, and 9. */
  predicate Readable(value: string) {
    forall i :: 0 <= i < |value| ==> 32 <= value[i] as int < 127 || value[i] as int == 9
  }

  /** How many of the headers are readable. */
  function ReadableCount(headers: seq<Field>): nat {
    if headers == [] then 0
    else ReadableCount(headers[..|headers| - 1]) + (if Readable(headers[|headers| - 1].value) then 1 else 0)
  }

  lemma {:induction false} ReadablePrinted(headers: seq<Field>)
    ensures |VisibleFields(headers)| == ReadableCount(headers)
  {
    hide VisibleFields;
    if headers == [] {
      NothingVisible();
    } else {
      var before, last := headers[..|headers| - 1], headers[|headers| - 1];
      assert headers == before + [last];
      ReadablePrinted(before);
      VisibleSnoc(before, last);
    }
  }

  /** Exactly the readable headers are printed, in the client's order: there are
      as many, and each stands behind the readable ones before it. */
  lemma {:induction false} ReadableInOrder(headers: seq<Field>, i: nat)
    requires i < |headers| && Readable(headers[i].value)
    ensures |VisibleFields(headers)| == ReadableCount(headers) > ReadableCount(headers[..i])
    ensures VisibleFields(headers)[ReadableCount(headers[..i])] == headers[i]
  {
    hide VisibleFields, Readable;
    var n := |headers| - 1;
    var before, last := headers[..n], headers[n];
    assert headers == before + [last] && headers[..i] == before[..i];
    ReadablePrinted(headers);
    ReadablePrinted(before);
    VisibleSnoc(before, last);
    if i < n {
      ReadableInOrder(before, i);
    }
  }

  lemma PrintedFieldsArePrintable(req: Request, basicAuth: Option<string>)
    requires WellFormed(req, basicAuth)
    ensures PrintableFields(PrintedFields(req, basicAuth))
  {
    forall f | f in PrintedFields(req, basicAuth)
      ensures PrintableField(f)
    {
      if f in VisibleFields(req.headers) {
        VisibleIsClean(f.value);
      } else {
        assert f in Credentials(basicAuth);
        CredentialNameIsToken();
      }
    }
  }

  lemma CleanConcat(a: string, b: string)
    ensures Clean(a + b) <==> Clean(a) && Clean(b)
  {
    assert '\r' in a + b <==> '\r' in a || '\r' in b;
    assert '\n' in a + b <==> '\n' in a || '\n' in b;
  }

  lemma VisibleIsClean(value: string)
    requires IsVisible(value)
    ensures Clean(value)
  {
  }

  lemma CredentialNameIsToken()
    ensures IsToken("Proxy-Authorization")
  {
  }

  /** The upstream reads the injected credentials exactly when the client sent no
      printable Proxy-Authorization of its own; otherwise it reads the client's. */
  lemma InjectedCredentialsRead(req: Request, absoluteForm: bool, b64: string)
    requires WellFormed(req, Some(b64))
    ensures FindHeaderValue(RequestText(req, absoluteForm, Some(b64)), "Proxy-Authorization")
         == Some(Trim(match FirstField(VisibleFields(req.headers), "Proxy-Authorization")
                      case Some(own) => own
                      case None => "Basic " + b64))
  {
    CredentialNameIsToken();
    InjectedField(req, b64);
    hide *;
    RequestOnTheWire(req, absoluteForm, Some(b64), "Proxy-Authorization");
  }

  lemma InjectedField(req: Request, b64: string)
    ensures FirstField(PrintedFields(req, Some(b64)), "Proxy-Authorization")
         == Some(match FirstField(VisibleFields(req.headers), "Proxy-Authorization")
                 case Some(own) => own
                 case None => "Basic " + b64)
  {
    hide VisibleFields, FirstField;
    FirstOfAppended(VisibleFields(req.headers), Field("Proxy-Authorization", "Basic " + b64), "Proxy-Authorization");
  }

  lemma FirstOfAppended(fields: seq<Field>, last: Field, key: string)
    ensures FirstField(fields + [last], key)
         == if FirstField(fields, key).Some? then FirstField(fields, key)
            else if EqIgnoreCase(last.name, key) then Some(last.value) else None
  {
    hide EqIgnoreCase;
    if fields == [] {
      assert fields + [last] == [last];
    } else {
      assert (fields + [last])[1..] == fields[1..] + [last];
      FirstOfAppended(fields[1..], last, key);
    }
  }

  // ---- responses -----------------------------------------------------------

  datatype Response = Response(status: nat, body: string)

  const BAD_GATEWAY: nat := 502

  /** The status sent on to the client: what the first line says, if that is a
      status code at all. */
  function StatusOf(raw: string): nat {
    match ParseStatus(raw)
    case None => BAD_GATEWAY
    case Some(n) => if 100 <= n < 1000 then n else BAD_GATEWAY
  }

  /** The bytes after the first terminator. */
  function BodyOf(raw: string): string {
    match FindSubsequence(raw, TERMINATOR)
    case None => ""
    case Some(p) => raw[p + 4..]
  }

  method ParseRawResponse(buf: Buffer) returns (r: Response)
    modifies buf
    ensures r == Response(StatusOf(old(buf.bytes)), BodyOf(old(buf.bytes)))
  {
    hide ParseStatus;
    var parsed := ParseStatus(buf.bytes);
    var status := if parsed.Some? then parsed.value else BAD_GATEWAY;
    var statusCode := if 100 <= status < 1000 then status else BAD_GATEWAY;
    var found := FindSubsequence(buf.bytes, TERMINATOR);
    var bodyStart := if found.Some? then found.value + 4 else |buf.bytes|;
    buf.Drain(bodyStart);
    return Response(statusCode, buf.bytes);
  }

  /** A status is always a status code, and the reply is a 502 whenever there is
      nothing to read it from: no line, no second word, no number, or one that is
      no status code. */
  lemma UnreadableStatus(raw: string)
    ensures 100 <= StatusOf(raw) < 1000
    ensures raw == "" || |Words(Lines(raw)[0])| < 2 ==> StatusOf(raw) == 502
    ensures raw != "" && |Words(Lines(raw)[0])| >= 2 ==>
              match ParseUnsigned(Words(Lines(raw)[0])[1], 65536)
              case None => StatusOf(raw) == 502
              case Some(n) => StatusOf(raw) == if n < 100 || n > 999 then 502 else n
  {
    hide Lines, Words, ParseUnsigned;
  }

  /** A buffer without a terminator has no body. */
  lemma NoTerminatorNoBody(raw: string)
    requires !HasTerminator(raw)
    ensures BodyOf(raw) == ""
  {
  }

  /** Splitting undoes joining: whatever the body holds, it comes back unchanged
      from behind a head that ends with its first terminator; and only such
      heads give every body back. */
  lemma SplitUndoesJoin(head: string, body: string)
    requires HeaderBlock(head)
    ensures BodyOf(head + body) == body
  {
    TerminatorAfterBlock(head, body);
  }

  lemma SplitOnlyAtHeaderBlocks(head: string)
    requires forall body :: BodyOf(head + body) == body
    ensures HeaderBlock(head)
  {
    var body := "x";
    assert BodyOf(head + body) == body;
    var p := FindSubsequence(head + body, TERMINATOR).value;
    assert |(head + body)[p + 4..]| == 1;
    assert (head + body)[p..p + 4] == head[p..p + 4];
    assert OccursAt(head, TERMINATOR, p);
    forall i | OccursAt(head, TERMINATOR, i)
      ensures p <= i
    {
      assert (head + body)[i..i + 4] == head[i..i + 4];
      assert OccursAt(head + body, TERMINATOR, i);
    }
  }

  // ---- printed responses ---------------------------------------------------

  /** A whole response, as a server prints it. */
  function PrintedResponse(version: string, code: nat, reason: string, fields: seq<Field>, body: string): string {
    Block([StatusLine(version, Decimal(code), reason)] + FieldLines(fields)) + body
  }

  function StatusLine(version: string, code: string, reason: string): string {
    version + " " + code + " " + reason
  }

  /** A word: not empty, no white space. */
  predicate IsWord(s: string) {
    s != "" && forall i :: 0 <= i < |s| ==> !IsSpace(s[i])
  }

  lemma {:induction false} FirstWord(word: string, rest: string)
    requires (forall i :: 0 <= i < |word| ==> !IsSpace(word[i])) && (rest == "" || IsSpace(rest[0]))
    ensures WordLength(word + rest) == |word|
  {
    hide IsSpace;
    if word == "" {
      assert word + rest == rest;
    } else {
      assert (word + rest)[1..] == word[1..] + rest;
      FirstWord(word[1..], rest);
    }
  }

  lemma StatusWords(version: string, code: string, reason: string)
    requires IsWord(version) && IsWord(code)
    ensures |Words(StatusLine(version, code, reason))| >= 2
    ensures Words(StatusLine(version, code, reason))[1] == code
  {
    hide TrimStart, WordLength, Words;
    var after, last := " " + code + " " + reason, " " + reason;
    FirstWord(version, after);
    FirstWord(code, last);
    TrimStartDrops("", version + after);
    TrimStartDrops(" ", code + last);
    assert version + after == StatusLine(version, code, reason) == "" + (version + after);
    assert after == " " + (code + last);
    SecondWord(version + after, version, after, code, last);
  }

  lemma SecondWord(line: string, first: string, after: string, second: string, last: string)
    requires TrimStart(line) == line && line != "" && WordLength(line) == |first| && line == first + after
    requires TrimStart(after) == second + last && second != "" && WordLength(second + last) == |second|
    ensures |Words(line)| >= 2 && Words(line)[1] == second
  {
    hide TrimStart, WordLength;
    assert line[|first|..] == after;
    assert (second + last)[..|second|] == second;
    assert Words(line) == [line[..|first|]] + Words(after);
    assert Words(after) == [second] + Words((second + last)[|second|..]);
  }

  lemma CodeIsWord(code: nat)
    ensures IsWord(Decimal(code))
  {
    var s := Decimal(code);
    forall i | 0 <= i < |s|
      ensures !IsSpace(s[i])
    {
      assert s[i] in s;
    }
  }

  /** Reading the status of a block whose first line is a printed status line:
      neither the other lines nor the bytes behind the block matter. */
  lemma ParsePrintedStatus(version: string, code: nat, reason: string, more: seq<string>, body: string)
    requires IsWord(version) && Clean(version) && Clean(reason) && code < 0x1_0000
    ensures ParseStatus(Block([StatusLine(version, Decimal(code), reason)] + more) + body) == Some(code)
    ensures BlockLine(StatusLine(version, Decimal(code), reason))
  {
    var text, line := Decimal(code), StatusLine(version, Decimal(code), reason);
    DecimalText(code);
    CodeIsWord(code);
    StatusLineIsClean(version, text, reason);
    StatusWords(version, text, reason);
    ParsePrintedNumber(code, 0x1_0000);
    FirstLine(line, more, body);
    hide Decimal, Words, Block, IsWord, ParseUnsigned, Lines, StatusLine;
  }

  lemma StatusLineIsClean(version: string, code: string, reason: string)
    requires version != "" && Clean(version) && Clean(code) && Clean(reason)
    ensures BlockLine(StatusLine(version, code, reason))
  {
  }

  lemma FirstLine(line: string, more: seq<string>, body: string)
    requires Clean(line)
    ensures var text := Block([line] + more) + body; Lines(text) != [] && Lines(text)[0] == line
  {
    hide Lines;
    assert ([line] + more)[1..] == more;
    assert Block([line] + more) + body == line + CRLF + (Block(more) + body);
    LinesOfFirst(line, Block(more) + body);
  }

  /** A printed response comes through with its code and its body, whatever the
      body holds. */
  lemma ResponseRoundTrip(
    version: string, code: nat, reason: string, fields: seq<Field>, body: string)
    requires IsWord(version) && Clean(version) && Clean(reason) && 100 <= code < 1000
    ensures StatusOf(PrintedResponse(version, code, reason, fields, body)) == code
    ensures PrintableFields(fields) ==>
              && HeaderBlock(Block([StatusLine(version, Decimal(code), reason)] + FieldLines(fields)))
              && BodyOf(PrintedResponse(version, code, reason, fields, body)) == body
  {
    hide Decimal, IsWord, TokenChar, HeaderBlock, ParseStatus, Block, StatusLine, BodyOf;
    var line := StatusLine(version, Decimal(code), reason);
    ParsePrintedStatus(version, code, reason, FieldLines(fields), body);
    if PrintableFields(fields) {
      PrintableLines(fields);
      BlockIsHeaderBlock([line] + FieldLines(fields));
      SplitUndoesJoin(Block([line] + FieldLines(fields)), body);
    }
  }

  lemma PrintableLines(fields: seq<Field>)
    requires PrintableFields(fields)
    ensures BlockLines(FieldLines(fields))
  {
    CredentialNameIsToken();
    HeaderInPrintedFields(fields, "Proxy-Authorization");
  }
}
