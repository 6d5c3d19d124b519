# FerroVela: a verified model

FerroVela is a local forward proxy. This project models, in Dafny 4.11, the parts of it
that decide things, and proves what they keep.

| files | part of the program |
|---|---|
| `TcpStream`, `AuthSession`, `AuthTunnel` | the authenticated CONNECT handshake: chunked header reader, response reader, challenge loop |
| `HeaderReading`, `HandshakeRuns`, `StreamSync`, `TunnelBytes` | what holds of every read, every run, of the byte stream through all rounds, and of the tunnel's bytes |
| `HandshakeExamples` | concrete conversations |
| `Ntlm`, `NtlmTunnel`, `ChallengeLookup` | the NTLM session, alone and composed with the loop; the two readers of the challenge header |
| `Text`, `HttpUtils`, `ProxyWire` | text operations, header readers, the request printer and the response splitter |
| `Routing`, `Exceptions` | targets, the routing decision, the compiled exception list |
| `Calendar`, `RotatingLog` | timestamps and log rotation |
| `Glob`, `PacPool`, `PacProgress` | the star-collapsing loop and the worker pool |
| `Settings` | configuration, preference store and settings form |

## How things are represented

- Text and bytes are sequences of characters, for ASCII content. White space, lines, words
  and number parsing follow Rust's `str` on ASCII; 16-, 32- and 64-bit limits are explicit. PAC answers
  may hold any character, with byte offsets counted in UTF-8.
- A connection is the list of segments its reads will return, each of 1 to 4096 bytes, then
  a close or a reset, and the number of writes that still succeed. The list is arbitrary, so a
  theorem about it is a theorem about every upstream and every cutting of its bytes.
- A session is any state type with any step function. Clocks and caches are part of the state.
- Base64, the NTLM message formats and the PAC script are arbitrary functions.
- The worker pool is a state machine over its steps: a run is any sequence of enabled steps.
- Procedures that update state in the program are methods over objects or loops here, each
  proved equal to a function; the theorems are about that function.
- `hide` statements only leave function bodies out of a proof; they assume nothing.

## Assumptions of the stream theorems

`StreamSync` takes the one the program states (auth_tunnel.rs:35-38: the read that returns the
end of a head returns nothing after it) as read boundaries at the ends of heads, and framing by
Content-Length (section 6.3 of RFC 9112). `HeaderReading.BlockReadExactly` proves that the first
is not only sufficient but necessary; heads more than one byte over the size limit also need that
no read ends inside them past the limit. The whole-run theorems over an upstream's messages further
take the first 200 to be the last message and, without a 200, five messages or a rest without a
header terminator, such as nothing at all from an upstream that refuses and closes.

## Where the code falls short of its documents or of what a caller expects

- auth_tunnel.rs:163 speaks of up to four round trips; the code makes five when the first four
  responses are challenges the session answers (`HandshakeRuns.RequestsExactlyWhen`, and a run of five
  in `HandshakeExamples.FiveRequestsHappen`). The loop's last
  pass reports exhaustion for any status, not only for 407 (`HandshakeRuns.ExhaustedExactlyWhen`).
- A 200 to CONNECT that carries a Content-Length costs the tunnel that many bytes; section 9.3.6 of
  RFC 9110 has a client ignore the field (`TunnelBytes.HandshakeKeepsTunnelExactlyWhen`).
- auth_tunnel.rs:33 says no body bytes are read; the chunked reader reads them whenever a read
  goes past the terminator (`HeaderReading.BlockReadExactly`).
- The challenge reader misses some letter cases when no space follows the colon
  (`ChallengeLookup.AgreeOnLine`, `ChallengeLookup.ReadersDisagree`).
- The routing host of an IPv6 literal is not the literal (`Routing.PrintedTargetReadBack`; "::1" gives
  "[", `Routing.LoopbackHost`), so no spelling of it in the exception list exempts it
  (`Routing.Ipv6NeverExemptByName`). A bare
  `PROXY` directive, or one that goes on with a multi-byte character, is sliced where it cannot be
  (`Routing.PanicsExactlyWhen`, `Routing.BareProxyPanics`).
- A port text with white space around it passes the form's validation and is saved as the default
  port (`Settings.AcceptedPortIsSavedExactlyWhen`, `Settings.SpacedPortIsLost`).
- An upstream that is only white space is saved by one pass through the form and removed by the next
  (`Settings.StoreFixedAfterOnePassExactlyWhen`).
- Timestamps stop sorting by time after the year 9999 (`Calendar.TimestampOrderExactlyWhen`).
- With three workers the round robin loses its balance when the counter wraps
  (`PacPool.BalancedForeverExactlyWhen`).

## Model

| member | source | states |
|---|---|---|
| HttpUtils.FindSubsequence | crates/ferrovela-lib/src/proxy/http_utils.rs:6-8 | an occurrence is returned exactly when there is one, and it is the first |
| HttpUtils.ContentLengthOfPrinted | crates/ferrovela-lib/src/proxy/http_utils.rs:14-23 | a printed Content-Length field, in any letter case and among any other lines, is read back as the number printed |
| HttpUtils.NoContentLength | crates/ferrovela-lib/src/proxy/http_utils.rs:14-23 | without a content-length line the length is 0 |
| HttpUtils.ContentLengthAt | crates/ferrovela-lib/src/proxy/http_utils.rs:14-23 | the first content-length line decides, among any others: the number behind its colon, or 0 when that is none that fits |
| HttpUtils.HeaderInPrintedFields | crates/ferrovela-lib/src/proxy/http_utils.rs:30-41 | a lookup in printed fields gives the trimmed value of the first field of that name, and nothing exactly when no field has it |
| HttpUtils.RequestLineIsNoHeader | crates/ferrovela-lib/src/proxy/http_utils.rs:30-41 | no header lookup matches a request line |
| HttpUtils.LinesOfBlock | crates/ferrovela-lib/src/proxy/mod.rs:354-384 | the lines of a printed header block are the lines printed, then the empty one |
| HttpUtils.TerminatorOnlyAtEnd | crates/ferrovela-lib/src/proxy/mod.rs:354-384 | the header terminator occurs in a printed block at its end and nowhere else, overlaps included |
| HttpUtils.RequestReadBack | crates/ferrovela-lib/src/proxy/mod.rs:348-384 | any printed request is one header block; a lookup gives the first field of the name, trimmed, or nothing |
| HttpUtils.RequestTextInjective | crates/ferrovela-lib/src/proxy/mod.rs:348-384 | no two requests print alike: verb, rest of the request line and the whole list of fields, repeated names included, are determined by the text |
| TcpStream.Connection.Read | crates/ferrovela-lib/src/proxy/auth_tunnel.rs:46-49 | one read with a 4096-byte buffer returns the next segment, nothing at the end of the stream, or an error |
| TcpStream.Connection.ReadExact | crates/ferrovela-lib/src/proxy/auth_tunnel.rs:112-117 | exactly the asked number of bytes is taken, over as many reads as needed, or the stream runs out with an error |
| TcpStream.Connection.WriteAll | crates/ferrovela-lib/src/proxy/auth_tunnel.rs:154-155 | a message is written whole, or the write fails and nothing counts as sent |
| AuthSession.Session.Step | crates/ferrovela-lib/src/auth/mod.rs:15-22 | a step returns, and moves to, what the session's behaviour gives for its state and the challenge |
| AuthTunnel.ReadHttpHeaders | crates/ferrovela-lib/src/proxy/auth_tunnel.rs:39-66 | the loop computes the reader function on the segments still to come and buffers at most the limit plus one chunk |
| AuthTunnel.ReadProxyResponse | crates/ferrovela-lib/src/proxy/auth_tunnel.rs:102-120 | the response reader computes the reply function: status and challenge from the head, the declared body drained, every error case |
| AuthTunnel.SendConnect | crates/ferrovela-lib/src/proxy/auth_tunnel.rs:142-156 | exactly one message is written, the CONNECT block for the target with the credentials if given; or none |
| AuthTunnel.ConnectRequestText | crates/ferrovela-lib/src/proxy/auth_tunnel.rs:142-156 | the request spelled out: request line, Host, the credentials if any, empty line |
| AuthTunnel.ConnectRequestReadBack | crates/ferrovela-lib/src/proxy/auth_tunnel.rs:142-156 | a proxy reading the request gets back the target and exactly the given credentials, none if none were given |
| AuthTunnel.SendAndReceive | crates/ferrovela-lib/src/proxy/auth_tunnel.rs:209-210 | one request and its response: trace, reply and connection are those of the exchange function |
| AuthTunnel.AnswerChallenge | crates/ferrovela-lib/src/proxy/auth_tunnel.rs:187-220 | one pass of the loop body: the session is stepped once with the last challenge, its token sent, the answer read |
| AuthTunnel.AnswerChallenges | crates/ferrovela-lib/src/proxy/auth_tunnel.rs:186-223 | the bounded loop computes the round function: result, trace, session state and what is left of the connection |
| AuthTunnel.PerformAuthenticatedConnect | crates/ferrovela-lib/src/proxy/auth_tunnel.rs:166-224 | the whole handshake, and what was written on the connection is the requests of its trace in order |
| HeaderReading.ReaderStops | crates/ferrovela-lib/src/proxy/auth_tunnel.rs:39-66 | for every cutting: the shortest chunk-aligned prefix holding the terminator, unless the limit or the end of the stream comes first; the buffer bound |
| HeaderReading.StopsAfterUnique | crates/ferrovela-lib/src/proxy/auth_tunnel.rs:45-58 | that account of the reader determines the number of reads, the result and the rest |
| HeaderReading.BlockReadExactly | crates/ferrovela-lib/src/proxy/auth_tunnel.rs:35-66 | a header block is returned exactly, leaving exactly what follows, if and only if a read ends with the block and no read ends past the limit inside it |
| HeaderReading.SizeLimits | crates/ferrovela-lib/src/proxy/auth_tunnel.rs:28-57 | blocks up to one byte over the limit are read whatever the cutting; blocks over the limit plus a chunk are always refused |
| HandshakeRuns.EveryRun | crates/ferrovela-lib/src/proxy/auth_tunnel.rs:166-224 | every run, any upstream and session: requests and responses alternate, at most five requests, the first bare, each later one the session's token for the challenge just read; the result is the one the trace calls for |
| HandshakeRuns.EstablishedExactlyWhen | crates/ferrovela-lib/src/proxy/auth_tunnel.rs:166-224 | with every exchange complete: success exactly when all responses but the last are 407, the last is 200 and each step gave a token |
| HandshakeRuns.ExhaustedExactlyWhen | crates/ferrovela-lib/src/proxy/auth_tunnel.rs:186-223 | exhaustion is reported exactly after five responses of which the last is no 200, whatever its status |
| HandshakeRuns.RunWrites | crates/ferrovela-lib/src/proxy/auth_tunnel.rs:175-210 | one write per request; a broken pipe only when none was left |
| HandshakeRuns.RequestsExactlyWhen | crates/ferrovela-lib/src/proxy/auth_tunnel.rs:166-224 | a run makes more than k requests exactly when it can still write, the first k responses are 407 with a token each, and k is at most four; so five are made exactly after four answered challenges |
| StreamSync.TakesDeclaredLength | crates/ferrovela-lib/src/proxy/auth_tunnel.rs:102-120 | a response read takes its head and the declared number of bytes, or fails exactly when there are fewer; later read boundaries move along |
| StreamSync.RefusesResponse | crates/ferrovela-lib/src/proxy/auth_tunnel.rs:102-120 | which error a response gives that is none: no status, or too few bytes behind its head, and what it uses up |
| StreamSync.ConsumesOneMessage | crates/ferrovela-lib/src/proxy/auth_tunnel.rs:102-120 | each response read consumes exactly one framed message, whatever follows |
| StreamSync.NextInStep | crates/ferrovela-lib/src/proxy/auth_tunnel.rs:102-120 | so a stream that carries messages carries the later ones afterwards |
| StreamSync.HandshakeInStep | crates/ferrovela-lib/src/proxy/auth_tunnel.rs:166-224 | through all rounds the stream stands at the next response; a read error comes only when the messages are used up; on success exactly the tunnel's bytes are left |
| StreamSync.EstablishedExactlyWhenWelcome | crates/ferrovela-lib/src/proxy/auth_tunnel.rs:166-224 | the upstream's messages and the writes left decide: a tunnel exactly when all but the last of at most five are 407 with a token each, the last is 200, and there is a write for each; upstreams that refuse and close included |
| StreamSync.RequestsDecidedByMessages | crates/ferrovela-lib/src/proxy/auth_tunnel.rs:166-224 | the same over the messages the upstream holds ready: they alone decide how many requests are made |
| HandshakeExamples.FiveRequestsHappen | crates/ferrovela-lib/src/proxy/auth_tunnel.rs:186-223 | a run of five requests that establishes the tunnel with the fifth |
| TunnelBytes.TunnelKeptExactlyWhen | crates/ferrovela-lib/src/proxy/auth_tunnel.rs:35-120 | one response read, for every cutting: the bytes behind a head survive exactly when a read ends with the head and it declares no length |
| TunnelBytes.HandshakeKeepsTunnelExactlyWhen | crates/ferrovela-lib/src/proxy/auth_tunnel.rs:166-224 | the whole handshake, behind any number of answered 407s: the tunnel is left whole exactly when there was a write for each request, a read ends with the head of the 200, and it declares no length; a declared length is taken from it, and a head read with more loses that |
| TunnelBytes.DeclaredLengthIsLost | crates/ferrovela-lib/src/proxy/auth_tunnel.rs:102-224 | for every length: a run whose 200 declares it succeeds and has lost that many tunnel bytes |
| Ntlm.NtlmSession.Step | crates/ferrovela-lib/src/auth/ntlm.rs:60-144 | the session computes the step function; what that gives is stated in the next three rows and below |
| Ntlm.NegotiateTokenExactlyWhen | crates/ferrovela-lib/src/auth/ntlm.rs:62-85 | the first token: exactly when the Type 1 message for the domain and the workstation can be encoded, and it is the scheme and that message in base64 |
| Ntlm.AuthenticateTokenExactlyWhen | crates/ferrovela-lib/src/auth/ntlm.rs:86-138 | the second token: exactly for a challenge of the scheme and a text that decodes, trimmed, to a Type 2 message that can be answered; it is the scheme and the answer to that message in base64 |
| Ntlm.NoTokenKeepsState | crates/ferrovela-lib/src/auth/ntlm.rs:60-144 | a step without a token leaves the state; no header exactly when complete |
| Ntlm.AdvancesExactlyWithTokens | crates/ferrovela-lib/src/auth/ntlm.rs:60-144 | the state advances by one with each token and is unchanged otherwise; no header exactly when complete |
| Ntlm.NtlmRun | crates/ferrovela-lib/src/auth/ntlm.rs:60-144 | composed with the loop: at most three requests, bare, Type 1, Type 3; a 407 after Type 3 is an error with nothing more sent |
| NtlmTunnel.NtlmEstablishedExactlyWhen | crates/ferrovela-lib/src/proxy/auth_tunnel.rs:166-224 | NTLM over the byte stream: a tunnel exactly for three shapes of conversation with a write for each request, with exactly the tunnel's bytes left; every other conversation fails |
| ChallengeLookup.TunnelReads | crates/ferrovela-lib/src/proxy/auth_tunnel.rs:72-87 | the tunnel's challenge reader on a trimmed line, in one condition and one value |
| ChallengeLookup.GeneralReads | crates/ferrovela-lib/src/proxy/http_utils.rs:30-41 | the general lookup for the same name, on any line |
| ChallengeLookup.AgreeOnLine | crates/ferrovela-lib/src/proxy/auth_tunnel.rs:72-87 | the two readers agree on a line exactly when, if it names the header, it is unindented just in case its form is one the tunnel takes |
| ChallengeLookup.ReadersAgreeOnResponse | crates/ferrovela-lib/src/proxy/auth_tunnel.rs:72-87 | agreement on each header line is agreement on the response's challenge |
| ChallengeLookup.ReadersAgreeExactlyWhen | crates/ferrovela-lib/src/proxy/auth_tunnel.rs:72-87 | for every response: the readers agree exactly when no line is taken by either, or both take the first such line, or the one that passes it over finds the same value later |
| ChallengeLookup.ReadersDisagree | crates/ferrovela-lib/src/proxy/auth_tunnel.rs:78-84 | on every response whose naming lines are unindented and in neither form the tunnel takes, the tunnel finds no challenge and the general lookup finds one as soon as there is such a line |
| ProxyWire.WriteHttpRequest | crates/ferrovela-lib/src/proxy/mod.rs:348-384 | the printer appends exactly the request's block to the caller's buffer, unprintable values skipped |
| ProxyWire.RequestLines | crates/ferrovela-lib/src/proxy/mod.rs:348-384 | the printed request line by line: the absolute URI towards an upstream, the origin form towards a server, the readable headers, the credentials, the empty line |
| ProxyWire.ReadableInOrder | crates/ferrovela-lib/src/proxy/mod.rs:366-374 | exactly the headers of visible ASCII, spaces and tabs are printed, in the client's order |
| ProxyWire.RequestOnTheWire | crates/ferrovela-lib/src/proxy/mod.rs:348-384 | the terminator is found at the end of the text; a lookup gives the first printed header of the name, never the request line |
| ProxyWire.InjectedCredentialsRead | crates/ferrovela-lib/src/proxy/mod.rs:376-381 | the upstream reads the injected credentials exactly when the client sent no printable Proxy-Authorization |
| ProxyWire.ParseRawResponse | crates/ferrovela-lib/src/proxy/mod.rs:391-420 | status from the first line or 502; the buffer drained in place to the bytes after the first terminator |
| ProxyWire.UnreadableStatus | crates/ferrovela-lib/src/proxy/mod.rs:391-405 | the reply is a 502 whenever the first line gives no status code, and that code otherwise |
| ProxyWire.NoTerminatorNoBody | crates/ferrovela-lib/src/proxy/mod.rs:407-414 | a buffer without a terminator has no body |
| ProxyWire.SplitUndoesJoin | crates/ferrovela-lib/src/proxy/mod.rs:407-414 | a body behind a header block comes back unchanged, whatever it holds |
| ProxyWire.SplitOnlyAtHeaderBlocks | crates/ferrovela-lib/src/proxy/mod.rs:407-414 | only heads ending with their first terminator give every body back |
| ProxyWire.ParsePrintedStatus | crates/ferrovela-lib/src/proxy/auth_tunnel.rs:90-98 | the status of a printed status line is read back, for every 16-bit code and whatever follows the line |
| ProxyWire.ResponseRoundTrip | crates/ferrovela-lib/src/proxy/mod.rs:391-420 | a printed response comes through with its code and its body, whatever the body holds |
| Routing.PrintedTargetReadBack | crates/ferrovela-lib/src/proxy/mod.rs:243-247 | the guard reads back the host printed, for names and IPv6 literals; the routing reads it back exactly when it holds no colon |
| Routing.PrintedPortReadBack | crates/ferrovela-lib/src/proxy/mod.rs:243-247 | the text behind the last colon of a target is its port |
| Routing.BracketedTarget | crates/ferrovela-lib/src/proxy/ssrf.rs:9-15 | the guard's last-colon split and bracket trimming undo the brackets; the first-colon split does not |
| Routing.Ipv6ExemptExactlyWhen | crates/ferrovela-lib/src/proxy/mod.rs:619-631 | an IPv6 literal is exempt exactly when the list holds its first group behind an opening bracket; wildcards make no difference |
| Routing.Ipv6NeverExemptByName | crates/ferrovela-lib/src/proxy/mod.rs:624-631 | so no name and no spelling of the literal, with or without brackets and port, ever exempts it |
| Routing.RouteWithoutAnswer | crates/ferrovela-lib/src/proxy/mod.rs:619-653 | from exception list to route, for every host: one that a pattern matches is direct whatever PAC and upstream say; any other, without a PAC engine or with one that fails for its https url and name, goes to the configured upstream if there is one and is direct otherwise |
| Routing.RouteByAnswer | crates/ferrovela-lib/src/proxy/mod.rs:632-644 | for a host no pattern matches the PAC answer decides: direct unless its first directive begins with PROXY, and through the address behind PROXY and a white space |
| Routing.PanicsExactlyWhen | crates/ferrovela-lib/src/proxy/mod.rs:619-653 | the routing decision slices out of range or inside a character exactly for a PAC answer whose first directive is a bare PROXY or goes on after it with a multi-byte character (white space as in ASCII) |
| Routing.SliceAtBoundary | crates/ferrovela-lib/src/proxy/mod.rs:640 | a byte slice gives the text from the character boundary at that offset, and fails exactly when there is none |
| Routing.PacAddressReadBack | crates/ferrovela-lib/src/proxy/mod.rs:638-643 | the address after PROXY is returned exactly when white space follows the keyword |
| Exceptions.NewIndex | crates/ferrovela-lib/src/config.rs:126-142 | the loop compiles the list: exact names are the other patterns, suffixes the wildcards without their star, in order |
| Exceptions.PatternMeaning | crates/ferrovela-lib/src/config.rs:144-151 | a pattern matches a host that it equals, or that is something in front of a dot and the domain behind its star and dot |
| Exceptions.LookupIsScan | crates/ferrovela-lib/src/config.rs:144-151 | the compiled lookup is the plain scan over the patterns, for every list and host |
| Exceptions.OnlyTheSetOfPatternsCounts | crates/ferrovela-lib/src/config.rs:126-151 | order and repetition of patterns do not matter |
| Exceptions.DistributesOverConcatenation | crates/ferrovela-lib/src/config.rs:126-151 | joined lists match what either matches |
| Calendar.EpochToDatetime | crates/ferrovela-lib/src/logger.rs:81-124 | for every number of seconds a valid Gregorian date and time whose closed-form value is that number; casts lossless, month at most 12 |
| Calendar.EpochOrder | crates/ferrovela-lib/src/logger.rs:81-124 | the closed form is strictly monotone in the lexicographic order, and no two valid dates and times share a value |
| Calendar.Recovered | crates/ferrovela-lib/src/logger.rs:81-124 | every valid date and time from 1970 on is the only possible result for its value |
| Calendar.TimestampFields | crates/ferrovela-lib/src/logger.rs:71-78 | up to year 9999 the timestamp is YYYY-MM-DDThh:mm:ssZ (section 5.6 of RFC 3339) and every field is read back from its place |
| Calendar.SameWidthOrder | crates/ferrovela-lib/src/logger.rs:71-78 | text order is time order for any two years written with the same number of digits |
| Calendar.TimestampOrderExactlyWhen | crates/ferrovela-lib/src/logger.rs:71-78 | for any two valid dates and times: text order is time order exactly when the order of the year texts is the order of the years |
| Calendar.TimestampOrder | crates/ferrovela-lib/src/logger.rs:71-78 | up to year 9999 the timestamp is 20 characters and text order is time order |
| Calendar.TimestampOrderUpTo | crates/ferrovela-lib/src/logger.rs:71-78 | text order is time order on all years up to a bound exactly when the bound is at most 9999 |
| Calendar.TimestampOrderEndsWith9999 | crates/ferrovela-lib/src/logger.rs:77 | the first second of the year 10000 sorts before the last of 9999 |
| RotatingLog.RotatingLogger.Open | crates/ferrovela-lib/src/logger.rs:26-38 | opening creates the file if absent and starts the counter at its size |
| RotatingLog.RotatingLogger.Rotate | crates/ferrovela-lib/src/logger.rs:49-68 | the renaming loop computes the rotation function |
| RotatingLog.RotatingLogger.Log | crates/ferrovela-lib/src/logger.rs:141-166 | a disabled level changes nothing; otherwise rotate at the limit, then append the line stamped with the time of the clock reading |
| RotatingLog.WrittenLevels | crates/ferrovela-lib/src/logger.rs:137-139 | errors, warnings and information are written, debug and trace are not |
| RotatingLog.LineReadBack | crates/ferrovela-lib/src/logger.rs:160-161 | a line holds the timestamp, the level and the message, whole and unchanged |
| RotatingLog.RotationMoves | crates/ferrovela-lib/src/logger.rs:40-68 | each file moves one place down, the current one is empty, other files are untouched |
| RotatingLog.LogKeepsHistory | crates/ferrovela-lib/src/logger.rs:141-166 | history plus line is exactly the bytes lost plus the new history; only a replaced third backup is lost |
| RotatingLog.RunKeepsHistory | crates/ferrovela-lib/src/logger.rs:26-68 | every run with restarts: the history is a suffix of the initial bytes and all bytes logged |
| RotatingLog.RunCounts | crates/ferrovela-lib/src/logger.rs:26-38 | every run: the counter is the size of the current file, and only the four names of the log are touched |
| RotatingLog.LogFilesStaySmall | crates/ferrovela-lib/src/logger.rs:145-163 | every run: a file not found at the start stays below 10 MiB plus one line |
| RotatingLog.FreshLogRetains | crates/ferrovela-lib/src/logger.rs:26-38 | a log opened without backups starts out complete |
| RotatingLog.RunRetains | crates/ferrovela-lib/src/logger.rs:49-68 | from such a log, all bytes ever logged are present or at least the last 30 MiB are |
| Glob.GlobMatch | crates/ferrovela-lib/src/pac.rs:37-58 | the flag-carrying loop computes the recursive collapse; a bracket-free pattern matches exactly what it meant before |
| Glob.CollapseKeepsMeaning | crates/ferrovela-lib/src/pac.rs:38-53 | collapsing preserves the language of every pattern |
| Glob.CollapseNormalises | crates/ferrovela-lib/src/pac.rs:38-53 | no two adjacent stars are left, and only patterns with adjacent stars change |
| Glob.CollapseIdempotent | crates/ferrovela-lib/src/pac.rs:38-53 | collapsing twice is collapsing once |
| PacPool.StepKeeps | crates/ferrovela-lib/src/pac.rs:368-424 | every step of every interleaving keeps the pool invariant |
| PacPool.EveryRun | crates/ferrovela-lib/src/pac.rs:368-424 | the invariant holds at every point of every run; answers given and evaluations made never change |
| PacPool.FromStart | crates/ferrovela-lib/src/pac.rs:308-424 | every run of a new pool: each accepted request is in one place, each answer comes from its worker, whose history starts from the script it was loaded with |
| PacPool.QueriesAreSubmitted | crates/ferrovela-lib/src/pac.rs:405-411 | over every run the requests are the queries submitted, in order and unchanged |
| PacPool.AnswersStay | crates/ferrovela-lib/src/pac.rs:388-393 | a reply is to a request without an answer, so each is answered at most once |
| PacPool.ExactlyOnePlace | crates/ferrovela-lib/src/pac.rs:368-424 | an accepted request is in exactly one of queue, evaluation, answered; the answer is that of an evaluation by its own worker, of its own url and host, from the state the worker was in |
| PacPool.EvaluationEnds | crates/ferrovela-lib/src/pac.rs:368-393 | an evaluation that ends on its own gives what the script gives for the request and the worker's state; one is interrupted only when its deadline has passed |
| PacPool.AnswersAreTheScripts | crates/ferrovela-lib/src/pac.rs:368-393 | a worker whose evaluations end in time is its script run on the accepted queries one after the other: each answer is the script's from the state the earlier queries left |
| PacPool.AllAnswersAreTheScripts | crates/ferrovela-lib/src/pac.rs:308-424 | the same over every run of a new pool, from the state each worker was loaded with |
| PacPool.FirstInFirstOut | crates/ferrovela-lib/src/pac.rs:316-393 | replies follow the order of acceptance; at most 32 are queued |
| PacPool.DeadlineGuardsEvaluation | crates/ferrovela-lib/src/pac.rs:373-393 | the deadline is set whenever the script runs and cleared before a reply; an interruption comes only after the full time limit |
| PacProgress.LimitFreesWorker | crates/ferrovela-lib/src/pac.rs:345-376 | a running script can be interrupted exactly from the end of its time limit on, so one that never returns does not hold its worker |
| PacPool.NeverStuck | crates/ferrovela-lib/src/pac.rs:368-424 | while a request waits or is unanswered some worker or caller can step |
| PacProgress.WorkFalls | crates/ferrovela-lib/src/pac.rs:368-424 | every step but a new request and the passing of time lowers the work left |
| PacProgress.EveryRunSettles | crates/ferrovela-lib/src/pac.rs:368-424 | without new requests every run makes a bounded number of steps, and one that cannot go on has settled every request |
| PacProgress.CanSettle | crates/ferrovela-lib/src/pac.rs:368-424 | from every point of every run, when the scripts return, the workers can answer all requests, without a caller giving up |
| PacProgress.CallersAreFree | crates/ferrovela-lib/src/pac.rs:405-424 | a caller may submit at any time, and give up while it waits for room |
| PacPool.BalancedUntilWrap | crates/ferrovela-lib/src/pac.rs:413-416 | until the counter wraps, the loads of any two workers differ by at most one |
| PacPool.BalancedForeverExactlyWhen | crates/ferrovela-lib/src/pac.rs:405-416 | over all runs, the loads of any two workers stay within one exactly when the number of workers divides the counter's range; of one to four, only three does not |
| Settings.PreferenceStore.Save | crates/ferrovela-lib/src/config.rs:374-406 | the writes leave every key of the application as the configuration says and all other keys alone |
| Settings.LoadAfterSave | crates/ferrovela-lib/src/config.rs:319-372 | loading after saving gives the normal form, whatever the store held before |
| Settings.DefaultsLoaded | crates/ferrovela-lib/src/config.rs:319-366 | an empty store loads and shows the defaults |
| Settings.MissingKeysLoaded | crates/ferrovela-lib/src/config.rs:319-366 | a key that is missing, of another type or no 16-bit number loads as its default, whatever else is stored |
| Settings.JoinParse | crates/ferrovela-ui/src/ui/controller.rs:50-54 | joining any list of patterns and reading the text gives the list, in order |
| Settings.ParsedAreHosts | crates/ferrovela-ui/src/ui/controller.rs:379-389 | reading any text gives trimmed, non-empty, comma-free patterns |
| Settings.FormKeepsExactlyWhen | crates/ferrovela-ui/src/ui/controller.rs:349-405 | for every configuration: showing it and building it again gives it back exactly when its texts are trimmed and not empty, its scheme is known, no password stands beside the keyring, and neither upstream nor exceptions are without content |
| Settings.FormIsSaved | crates/ferrovela-ui/src/ui/controller.rs:349-405 | every form is saved field by field: proxy settings and exceptions |
| Settings.UpstreamFormIsSaved | crates/ferrovela-ui/src/ui/controller.rs:360-378 | every form is saved field by field: upstream settings, or none of them |
| Settings.SavedFormIsStable | crates/ferrovela-ui/src/ui/controller.rs:349-405 | whatever a form holds, once saved and loaded it is a fixpoint of show and build |
| Settings.PassIsIdempotent | crates/ferrovela-ui/src/ui/controller.rs:24-62 | load, show, build, save, load: what the first pass loads, a second pass from the store it left loads again |
| Settings.StoreFixedAfterTwoPasses | crates/ferrovela-ui/src/ui/controller.rs:24-62 | from the second pass on the store itself no longer changes |
| Settings.StoreFixedAfterOnePassExactlyWhen | crates/ferrovela-ui/src/ui/controller.rs:349-378 | it is fixed after the first pass exactly unless the form shown names no upstream but holds a blank user or address |
| Settings.AcceptedPorts | crates/ferrovela-ui/src/ui/controller.rs:612-622 | the form accepts exactly the numbers 1 to 65535, white space around them or not |
| Settings.AcceptedPortIsSavedExactlyWhen | crates/ferrovela-ui/src/ui/controller.rs:612-622 | a port the form accepts is the port saved exactly when its text has no white space around it (or it is the default) |

## Left out

- Sockets, the HTTP server, upgrade plumbing and bidirectional copying: library input and output.
- Kerberos, basic and mock sessions, the keyring and `create_authenticator`: foreign calls or constant answers; an arbitrary session covers them.
- QuickJS, PAC fetching and path checks, and the DNS and time helpers of PAC scripts: foreign code, or fixed answers.
- URL and IP address parsing, the normalisation of proxy addresses built on it, and the private-range tests: library code and finite case lists; a host is a parameter.
- launchd, the window, the view, keyring synchronisation and the editor's message handlers: operating system calls and user interface.
- Managed preference overrides: the store is what the program last wrote, over any earlier contents.
- ReadHttpHeaders: bytes outside ASCII and their lossy decoding are not modelled; with them the challenge reader's slice at byte 20 of a line (auth_tunnel.rs:75) can fall inside a character and panic.
- ReadProxyResponse: running out of memory for a very large declared body is not modelled.
- PerformAuthenticatedConnect: the error texts are constructors with the same parameters, and logging is left out; the loop body and the loop are methods of their own.
- NtlmSession.Step: the clock reading in a Type 3 message is a constant of the codec, which a session reads at most once with success.
- GlobMatch: patterns with bracket classes go to an arbitrary matcher; star collapsing inside a class is not given a meaning.
- RotatingLogger.Rotate: a failing rename or open, and the error line the program then writes, are not modelled; every file operation succeeds.
- RotatingLogger.Log: writers from other processes and a failing write are not modelled; the lock makes calls sequential.
- PreferenceStore.Save: keys are an enumeration plus foreign names, and the store keeps values as written; synchronisation is left out.
- StepKeeps: workers that fail to start, poisoned locks and callers that give up after their request was accepted are not modelled; a caller may give up while it waits for room.
- ParseRawResponse: response headers are not passed on by the program, so only status and body are modelled.
