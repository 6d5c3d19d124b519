/**
 What the chunked header reader returns, for every way of cutting the input.
 */
module HeaderReading {
  import opened Wrappers
  import opened HttpUtils
  import opened TcpStream
  import opened AuthTunnel

  /** After each of the first `k` reads the reader still wants more: no
      terminator yet and the size limit not passed. */
  ghost predicate StillReading(segments: seq<string>, k: nat) {
    k <= |segments|
    && forall j :: 0 <= j <= k ==>
         !HasTerminator(Flat(segments[..j])) && |Flat(segments[..j])| <= MAX_HEADER_BYTES
  }

  /** How a reader that has made `k` reads without stopping must end. */
  ghost predicate StopsAfter(
    segments: seq<string>, k: nat, resets: bool, result: Result<string, TunnelError>, rest: seq<string>)
  {
    && StillReading(segments, k)
    && if k == |segments| then
         result == Err(if resets then Io(ConnectionReset) else ClosedBeforeHeaders) && rest == []
       else
         var buf := Flat(segments[..k + 1]);
         && rest == segments[k + 1..]
         && if HasTerminator(buf) then result == Ok(buf)
            else |buf| > MAX_HEADER_BYTES && result == Err(HeadersTooLarge)
  }

  /** The reader returns the shortest chunk-aligned prefix that holds the
      terminator, unless the size limit or the end of the stream comes first;
      and it never buffers more than the limit plus one chunk. */
  lemma ReaderStops(segments: seq<string>, resets: bool) returns (k: nat)
    ensures StopsAfter(segments, k, resets, HeadersFrom("", segments, resets).0, HeadersFrom("", segments, resets).1)
    ensures k < |segments| && ValidSegments(segments) ==>
              |Flat(segments[..k + 1])| <= MAX_HEADER_BYTES + CHUNK
  {
    assert segments[..0] == [] && segments[0..] == segments;
    k := ReaderStopsFrom(segments, 0, resets);
    if k < |segments| {
      assert segments[..k + 1] == segments[..k] + [segments[k]];
      FlatSnoc(segments[..k], segments[k]);
    }
  }

  lemma {:induction false} ReaderStopsFrom(segments: seq<string>, i: nat, resets: bool) returns (k: nat)
    requires StillReading(segments, i)
    ensures i <= k
    ensures var (result, rest) := HeadersFrom(Flat(segments[..i]), segments[i..], resets);
            StopsAfter(segments, k, resets, result, rest)
    decreases |segments| - i
  {
    hide HasTerminator;
    k := i;
    if i < |segments| {
      var grown := Flat(segments[..i + 1]);
      assert segments[..i + 1] == segments[..i] + [segments[i]];
      FlatSnoc(segments[..i], segments[i]);
      assert segments[i..][1..] == segments[i + 1..];
      if !HasTerminator(grown) && |grown| <= MAX_HEADER_BYTES {
        k := ReaderStopsFrom(segments, i + 1, resets);
      }
    }
  }

  /** Two accounts of the same run agree: `StopsAfter` determines everything. */
  lemma StopsAfterUnique(
    segments: seq<string>, resets: bool, k: nat, k': nat,
    result: Result<string, TunnelError>, rest: seq<string>, result': Result<string, TunnelError>, rest': seq<string>)
    requires StopsAfter(segments, k, resets, result, rest)
    requires StopsAfter(segments, k', resets, result', rest')
    ensures k == k' && result == result' && rest == rest'
  {
    hide HasTerminator, Flat;
  }

  // ---- a block at the front of the stream ----------------------------------

  /** No read ends strictly between `low` and `high` bytes into the stream. */
  ghost predicate NoCutBetween(segments: seq<string>, low: int, high: int) {
    forall n :: low < n < high ==> !CutAt(segments, n)
  }

  /** When the stream starts with a header block, with `buf` of it read already:
      the reader succeeds exactly when no read ends past the size limit inside
      the block; it then takes exactly the block if and only if a read ends with
      the block, and the later read boundaries are kept. */
  lemma {:induction false} ReadBlockFrom(
    buf: string, segments: seq<string>, resets: bool, head: string, rest: string)
    requires HeaderBlock(head) && buf + Flat(segments) == head + rest
    requires |buf| < |head| && |buf| <= MAX_HEADER_BYTES
    ensures var (result, left) := HeadersFrom(buf, segments, resets);
            && (result.Ok? <==> NoCutBetween(segments, MAX_HEADER_BYTES - |buf|, |head| - |buf|))
            && (result.Err? ==> result.error == HeadersTooLarge)
            && (result.Ok? ==> result.value + Flat(left) == head + rest && |head| <= |result.value|)
            && (result.Ok? ==> (|result.value| == |head| <==> CutAt(segments, |head| - |buf|)))
            && (result.Ok? ==> |head| == |result.value| ==>
                  forall m: nat :: m > 0 ==> (CutAt(segments, |head| - |buf| + m) <==> CutAt(left, m)))
    decreases |segments|
  {
    hide HeaderBlock;
    var grown, later := buf + segments[0], segments[1..];
    assert grown + Flat(later) == head + rest;
    assert (head + rest)[..|grown|] == grown;
    NoTerminatorBeforeBlockEnd(head, rest, |grown|);
    if |grown| < |head| {
      if |grown| > MAX_HEADER_BYTES {
        assert CutAt(segments, |segments[0]|);
      } else {
        ReadBlockFrom(grown, later, resets, head, rest);
        ShiftCuts(segments, MAX_HEADER_BYTES - |buf|, |head| - |buf|);
      }
    } else {
      NoCutInside(segments);
    }
  }

  lemma NoCutInside(segments: seq<string>)
    requires segments != []
    ensures NoCutBetween(segments, 0, |segments[0]|)
  {
    forall n | 0 < n < |segments[0]|
      ensures !CutAt(segments, n)
    {
      assert !CutAt(segments[1..], n - |segments[0]|);
    }
  }

  lemma ShiftCuts(segments: seq<string>, low: nat, high: int)
    requires segments != [] && |segments[0]| <= low
    ensures NoCutBetween(segments, low, high)
       <==> NoCutBetween(segments[1..], low - |segments[0]|, high - |segments[0]|)
  {
    var first := |segments[0]|;
    forall n | low < n < high
      ensures CutAt(segments, n) <==> CutAt(segments[1..], n - first)
    {
    }
    if NoCutBetween(segments, low, high) {
      forall n | low - first < n < high - first
        ensures !CutAt(segments[1..], n)
      {
        assert !CutAt(segments, n + first);
      }
    }
  }

  /** A header block at the front of the stream is read back exactly, leaving
      exactly what follows it, if and only if a read ends with the block and no
      earlier read ends past the size limit. Nothing else about the cutting
      matters. */
  lemma BlockReadExactly(segments: seq<string>, resets: bool, head: string, rest: string)
    requires HeaderBlock(head) && Flat(segments) == head + rest
    ensures var (result, left) := HeadersFrom("", segments, resets);
            (result == Ok(head) && Flat(left) == rest
             <==> (CutAt(segments, |head|) && NoCutBetween(segments, MAX_HEADER_BYTES, |head|)))
  {
    hide HeadersFrom, HeaderBlock, CutAt;
    assert |head| >= 4 by { HeaderBlockLength(head); }
    assert "" + Flat(segments) == head + rest;
    ReadBlockFrom("", segments, resets, head, rest);
    var (result, left) := HeadersFrom("", segments, resets);
    if result.Ok? && |result.value| == |head| {
      assert (result.value + Flat(left))[..|head|] == (head + rest)[..|head|];
      assert (result.value + Flat(left))[|head|..] == (head + rest)[|head|..];
    }
  }

  lemma HeaderBlockLength(head: string)
    requires HeaderBlock(head)
    ensures |head| >= 4
  {
  }

  /** A block of at most one byte more than the limit is read whatever the
      cutting; a block longer than the limit and one chunk is always refused. */
  lemma SizeLimits(segments: seq<string>, resets: bool, head: string, rest: string)
    requires HeaderBlock(head) && Flat(segments) == head + rest && ValidSegments(segments)
    ensures |head| <= MAX_HEADER_BYTES + 1 ==> HeadersFrom("", segments, resets).0.Ok?
    ensures |head| > MAX_HEADER_BYTES + CHUNK ==> HeadersFrom("", segments, resets).0 == Err(HeadersTooLarge)
  {
    hide HeadersFrom, HeaderBlock;
    assert |head| >= 4 by { HeaderBlockLength(head); }
    assert "" + Flat(segments) == head + rest;
    ReadBlockFrom("", segments, resets, head, rest);
    if |head| > MAX_HEADER_BYTES + CHUNK {
      var n := CutWithinChunk(segments, MAX_HEADER_BYTES);
      assert CutAt(segments, n);
    }
  }

  /** Some read ends in any window of one chunk. */
  lemma {:induction false} CutWithinChunk(segments: seq<string>, low: nat) returns (n: nat)
    requires ValidSegments(segments) && |Flat(segments)| > low
    ensures low < n <= low + CHUNK && CutAt(segments, n)
    decreases |segments|
  {
    assert segments[0] in segments;
    if |segments[0]| > low {
      n := |segments[0]|;
      assert CutAt(segments[1..], 0);
    } else {
      n := CutWithinChunk(segments[1..], low - |segments[0]|);
      n := n + |segments[0]|;
    }
  }
}
