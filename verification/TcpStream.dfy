/**
 One TCP connection as the client sees it. Whatever the peer does, the bytes it
 delivers to one client run form a fixed list of segments, each the result of
 one read with a 4096-byte buffer; the list is arbitrary, so it covers every
 upstream and every way the network cuts its bytes.
 */
module TcpStream {
  import opened Wrappers

  const CHUNK: nat := 4096

  datatype IoError = ConnectionReset | BrokenPipe | UnexpectedEof

  // ---- segments ------------------------------------------------------------

  function Flat(segments: seq<string>): string {
    if segments == [] then "" else segments[0] + Flat(segments[1..])
  }

  lemma FlatSnoc(segments: seq<string>, last: string)
    ensures Flat(segments + [last]) == Flat(segments) + last
  {
    if segments == [] {
      assert segments + [last] == [last];
    } else {
      assert (segments + [last])[1..] == segments[1..] + [last];
      FlatSnoc(segments[1..], last);
    }
  }

  /** A boundary between two reads falls after the first `n` bytes. */
  predicate CutAt(segments: seq<string>, n: int) {
    || n == 0
    || (n > 0 && segments != [] && CutAt(segments[1..], n - |segments[0]|))
  }

  /** The segments left after exactly `n` bytes were taken off the front. */
  function DropBytes(segments: seq<string>, n: nat): (rest: seq<string>)
    requires n <= |Flat(segments)|
    ensures Flat(rest) == Flat(segments)[n..]
    ensures forall m: nat :: m > 0 ==> (CutAt(segments, n + m) <==> CutAt(rest, m))
    ensures ValidSegments(segments) ==> ValidSegments(rest)
    decreases |segments|
  {
    if n == 0 then segments
    else if |segments[0]| <= n then DropBytes(segments[1..], n - |segments[0]|)
    else [segments[0][n..]] + segments[1..]
  }

  /** What reads with a 4096-byte buffer can return. */
  predicate ValidSegments(segments: seq<string>) {
    forall s :: s in segments ==> 0 < |s| <= CHUNK
  }

  // ---- the connection ------------------------------------------------------

  /** The whole state of a connection: what the peer will still deliver, whether
      it then resets instead of closing, and how many writes still succeed. */
  datatype Net = Net(incoming: seq<string>, resets: bool, writesLeft: nat)

  class Connection {
    var incoming: seq<string>
    var writesLeft: nat
    const resets: bool
    ghost var written: seq<string>

    ghost predicate Valid()
      reads this
    {
      ValidSegments(incoming)
    }

    ghost function View(): Net
      reads this
    {
      Net(incoming, resets, writesLeft)
    }

    constructor (net: Net)
      requires ValidSegments(net.incoming)
      ensures Valid() && View() == net && written == []
    {
      incoming, resets, writesLeft := net.incoming, net.resets, net.writesLeft;
      written := [];
    }

    /** One read with a full-size buffer; no bytes at the end of the stream. */
    method Read() returns (r: Result<string, IoError>)
      requires Valid()
      modifies this`incoming
      ensures Valid()
      ensures old(incoming) == [] ==>
                incoming == [] && r == if resets then Err(ConnectionReset) else Ok("")
      ensures old(incoming) != [] ==>
                r == Ok(old(incoming)[0]) && incoming == old(incoming)[1..] && r.value != ""
    {
      if incoming == [] {
        r := if resets then Err(ConnectionReset) else Ok("");
      } else {
        assert incoming[0] in incoming;
        r := Ok(incoming[0]);
        incoming := incoming[1..];
      }
    }

    /** Read and discard exactly `n` bytes, over as many reads as it takes. */
    method ReadExact(n: nat) returns (r: Result<(), IoError>)
      requires Valid()
      modifies this`incoming
      ensures Valid()
      ensures n <= |Flat(old(incoming))| ==> r == Ok(()) && incoming == DropBytes(old(incoming), n)
      ensures n > |Flat(old(incoming))| ==>
                incoming == [] && r == Err(if resets then ConnectionReset else UnexpectedEof)
    {
      var missing := n;
      while missing > 0 && incoming != []
        invariant Valid() && 0 <= missing <= n
        invariant missing <= |Flat(incoming)| <==> n <= |Flat(old(incoming))|
        invariant missing <= |Flat(incoming)| ==>
                    DropBytes(incoming, missing) == DropBytes(old(incoming), n)
        decreases |incoming|, missing
      {
        if |incoming[0]| <= missing {
          missing, incoming := missing - |incoming[0]|, incoming[1..];
        } else {
          assert incoming[0] in incoming;
          incoming := [incoming[0][missing..]] + incoming[1..];
          missing := 0;
        }
      }
      r := if missing == 0 then Ok(()) else Err(if resets then ConnectionReset else UnexpectedEof);
    }

    /** Write one whole message. */
    method WriteAll(text: string) returns (r: Result<(), IoError>)
      requires Valid()
      modifies this`writesLeft, this`written
      ensures Valid()
      ensures old(writesLeft) == 0 ==>
                r == Err(BrokenPipe) && writesLeft == 0 && written == old(written)
      ensures old(writesLeft) > 0 ==>
                r == Ok(()) && writesLeft == old(writesLeft) - 1 && written == old(written) + [text]
    {
      if writesLeft == 0 {
        r := Err(BrokenPipe);
      } else {
        writesLeft, written := writesLeft - 1, written + [text];
        r := Ok(());
      }
    }
  }
}
