/** The server's framed echo loop over a byte stream that arrives in arbitrary pieces. */
module Echo {
  import opened Base
  import opened Wire
  import opened Framing

  /** How a connection's data phase ends. A stream that stops inside a header counts as a
      clean end; one that stops inside a payload, or fails anywhere, does not. */
  datatype EchoEnd = CleanEof | BadHeader(error: WireError) | TruncatedPayload | ConnectionLost

  datatype Echoed = Echoed(output: Bytes, end: EchoEnd)

  /** What the server writes back when its whole input is `input`, after which the stream ends. */
  function EchoStream(input: Bytes): Echoed {
    if |input| < DATA_HEADER_SIZE then Echoed([], CleanEof)
    else
      match DecodeHeader(input[..DATA_HEADER_SIZE])
      case Err(e) => Echoed([], BadHeader(e))
      case Ok(h) =>
        if |input| < DATA_HEADER_SIZE + h.payloadLen then Echoed([], TruncatedPayload)
        else
          var rest := EchoStream(input[DATA_HEADER_SIZE + h.payloadLen..]);
          Echoed(input[..DATA_HEADER_SIZE] + rest.output, rest.end)
  }

  /** The same if the stream, instead of ending, fails: all that changes is that running out
      of bytes is never a clean end. */
  function Interrupted(e: Echoed, broken: bool): Echoed {
    if broken && !e.end.BadHeader? then e.(end := ConnectionLost) else e
  }

  // ----- the stream as the server reads it

  function Flatten(chunks: seq<Bytes>): Bytes {
    if chunks == [] then [] else chunks[0] + Flatten(chunks[1..])
  }

  datatype ReadResult = Filled | AtEof | Failed

  /** A byte stream delivered chunk by chunk; after its last chunk it ends, or fails. */
  class SegmentedReader {
    const broken: bool
    var chunks: seq<Bytes>

    constructor (chunks: seq<Bytes>, broken: bool)
      ensures this.chunks == chunks && this.broken == broken
    {
      this.chunks, this.broken := chunks, broken;
    }

    function Contents(): Bytes
      reads this
    {
      Flatten(chunks)
    }

    /** Hands over up to `most` bytes of the first chunk, placing them at `at`. */
    method ReadSome(buf: array<Byte>, at: nat, most: nat) returns (k: nat)
      requires chunks != [] && at + most <= buf.Length
      modifies this, buf
      ensures k <= most && k <= |old(Contents())|
      ensures buf[..at + k] == old(buf[..at]) + old(Contents())[..k]
      ensures Contents() == old(Contents())[k..]
      ensures k == most || |chunks| < |old(chunks)|
    {
      var head, rest := chunks[0], chunks[1..];
      k := Min(most, |head|);
      chunks := if k == |head| then rest else [head[k..]] + rest;
      assert old(chunks) == [head] + rest;
      SplitHead(head, rest, k);
      CopyFromSlice(buf, at, head[..k]);
    }

    /** Fills the first `n` bytes of `buf`, or reports that the stream ended or failed first. */
    method ReadExact(buf: array<Byte>, n: nat) returns (r: ReadResult)
      requires n <= buf.Length
      modifies this, buf
      ensures r == if n <= |old(Contents())| then Filled else if broken then Failed else AtEof
      ensures r.Filled? ==> buf[..n] == old(Contents())[..n] && Contents() == old(Contents())[n..]
      ensures !r.Filled? ==> Contents() == []
    {
      hide Flatten;
      var filled := 0;
      ghost var input := Contents();
      while filled < n
        invariant filled <= n && filled <= |input|
        invariant buf[..filled] == input[..filled] && Contents() == input[filled..]
        decreases n - filled, |chunks|
      {
        if chunks == [] {
          FlattenNothing();
          return if broken then Failed else AtEof;
        }
        var k := ReadSome(buf, filled, n - filled);
        assert input[..filled] + input[filled..][..k] == input[..filled + k];
        filled := filled + k;
      }
      return Filled;
    }
  }

  lemma FlattenNothing()
    ensures Flatten([]) == []
  {
  }

  lemma SplitHead(head: Bytes, rest: seq<Bytes>, k: nat)
    requires k <= |head|
    ensures var left := if k == |head| then rest else [head[k..]] + rest;
            && Flatten([head] + rest)[..k] == head[..k]
            && Flatten(left) == Flatten([head] + rest)[k..]
    ensures k <= |Flatten([head] + rest)|
  {
    assert ([head] + rest)[1..] == rest;
    if k < |head| {
      assert ([head[k..]] + rest)[1..] == rest;
    }
  }

  /** Makes `buf` at least `size` bytes long, keeping what it holds. */
  method Resize(buf: array<Byte>, size: nat) returns (grown: array<Byte>)
    ensures grown.Length >= size && buf[..] <= grown[..]
    ensures grown == buf || fresh(grown)
  {
    if buf.Length >= size {
      return buf;
    }
    grown := new Byte[size](_ => 0);
    CopyFromSlice(grown, 0, buf[..]);
    assert grown[..buf.Length] == buf[..];
  }

  /** The output still owed when `output` has been written and `input` is left. */
  function Owed(output: Bytes, input: Bytes): Echoed {
    var rest := EchoStream(input);
    Echoed(output + rest.output, rest.end)
  }

  /** Echoing one accepted header moves it from the input to the output. */
  lemma OwedStep(output: Bytes, input: Bytes, h: DataHeader)
    requires |input| >= DATA_HEADER_SIZE + h.payloadLen && DecodeHeader(input[..DATA_HEADER_SIZE]) == Ok(h)
    ensures Owed(output, input)
         == Owed(output + input[..DATA_HEADER_SIZE], input[DATA_HEADER_SIZE + h.payloadLen..])
  {
    hide DecodeHeader;
    var rest := EchoStream(input[DATA_HEADER_SIZE + h.payloadLen..]).output;
    assert output + (input[..DATA_HEADER_SIZE] + rest) == output + input[..DATA_HEADER_SIZE] + rest;
  }

  lemma OwedEnd(output: Bytes, input: Bytes)
    ensures |input| < DATA_HEADER_SIZE ==> Owed(output, input) == Echoed(output, CleanEof)
    ensures |input| >= DATA_HEADER_SIZE ==>
              var d := DecodeHeader(input[..DATA_HEADER_SIZE]);
              && (d.Err? ==> Owed(output, input) == Echoed(output, BadHeader(d.error)))
              && (d.Ok? && |input| < DATA_HEADER_SIZE + d.value.payloadLen ==>
                    Owed(output, input) == Echoed(output, TruncatedPayload))
  {
    hide DecodeHeader;
    assert output + [] == output;
  }

  /** The data phase of a connection: it echoes exactly what the input as a whole calls
      for, however the input was cut into pieces, and tells an end from a failure. */
  method HandleData(reader: SegmentedReader) returns (output: Bytes, end: EchoEnd)
    modifies reader
    ensures Echoed(output, end) == Interrupted(EchoStream(old(reader.Contents())), reader.broken)
  {
    hide DecodeHeader, Owed, EchoStream, Flatten;
    var headerBuf := new Byte[DATA_HEADER_SIZE](_ => 0);
    var payloadBuf := new Byte[0];
    output := [];
    assert Owed([], reader.Contents()) == EchoStream(reader.Contents()) by { OwedNothing(reader.Contents()); }
    while true
      invariant fresh(headerBuf) && fresh(payloadBuf) && headerBuf != payloadBuf
      invariant headerBuf.Length == DATA_HEADER_SIZE
      invariant Owed(output, reader.Contents()) == EchoStream(old(reader.Contents()))
      decreases |reader.Contents()|
    {
      ghost var input := reader.Contents();
      OwedEnd(output, input);
      var read := reader.ReadExact(headerBuf, DATA_HEADER_SIZE);
      if !read.Filled? {
        return output, if read.AtEof? then CleanEof else ConnectionLost;
      }
      assert headerBuf[..] == headerBuf[..DATA_HEADER_SIZE] == input[..DATA_HEADER_SIZE];
      match DecodeHeader(headerBuf[..]) {
        case Err(e) =>
          return output, BadHeader(e);
        case Ok(h) =>
          if h.payloadLen > 0 {
            payloadBuf := Resize(payloadBuf, h.payloadLen);
            read := reader.ReadExact(payloadBuf, h.payloadLen);
            if !read.Filled? {
              return output, if read.AtEof? then TruncatedPayload else ConnectionLost;
            }
          }
          assert reader.Contents() == input[DATA_HEADER_SIZE + h.payloadLen..];
          OwedStep(output, input, h);
          output := output + headerBuf[..];
      }
    }
  }

  lemma OwedNothing(input: Bytes)
    ensures Owed([], input) == EchoStream(input)
  {
    assert [] + EchoStream(input).output == EchoStream(input).output;
  }

  // ----- what that means for packets

  lemma EchoOfOne(p: Packet, rest: Bytes)
    requires p.WellFormed()
    ensures EchoStream(Frame(p) + rest)
         == Echoed(EncodeHeader(p.header) + EchoStream(rest).output, EchoStream(rest).end)
  {
    hide DecodeHeader, EncodeHeader;
    var input := Frame(p) + rest;
    assert input[..DATA_HEADER_SIZE] == EncodeHeader(p.header);
    DecodeOfEncode(p.header);
    assert input[DATA_HEADER_SIZE + p.header.payloadLen..] == rest;
  }

  /** Over whole packets the byte echo is the message echo: exactly their headers, in order. */
  lemma {:induction false} EchoOfFrames(ps: seq<Packet>, rest: Bytes)
    requires AllWellFormed(ps)
    ensures EchoStream(Frames(ps) + rest) == Echoed(Headers(ps) + EchoStream(rest).output, EchoStream(rest).end)
  {
    hide DecodeHeader, EncodeHeader, EchoStream;
    if ps == [] {
      assert Frames(ps) + rest == rest;
      assert Headers(ps) + EchoStream(rest).output == EchoStream(rest).output;
    } else {
      assert Frames(ps) + rest == Frame(ps[0]) + (Frames(ps[1..]) + rest);
      EchoOfOne(ps[0], Frames(ps[1..]) + rest);
      EchoOfFrames(ps[1..], rest);
    }
  }

  /** A header that does not decode ends the stream with its error, behind the headers of the
      whole packets before it; nothing after it is read. */
  lemma EchoOfBadHeader(ps: seq<Packet>, bad: Bytes, rest: Bytes)
    requires AllWellFormed(ps) && |bad| == DATA_HEADER_SIZE && DecodeHeader(bad).Err?
    ensures EchoStream(Frames(ps) + (bad + rest)) == Echoed(Headers(ps), BadHeader(DecodeHeader(bad).error))
  {
    hide DecodeHeader, EncodeHeader;
    EchoOfFrames(ps, bad + rest);
    assert (bad + rest)[..DATA_HEADER_SIZE] == bad;
    assert Headers(ps) + [] == Headers(ps);
  }

  /** How many whole frames fit in the first `n` bytes. */
  function WholeFrames(ps: seq<Packet>, n: nat): (c: nat)
    ensures c <= |ps|
  {
    if ps == [] || n < |Frame(ps[0])| then 0
    else 1 + WholeFrames(ps[1..], n - |Frame(ps[0])|)
  }

  lemma {:induction false} WholeFramesIsMaximal(ps: seq<Packet>, n: nat)
    ensures var c := WholeFrames(ps, n);
            && |Frames(ps[..c])| <= n
            && (c < |ps| ==> n < |Frames(ps[..c + 1])|)
  {
    hide Frame;
    var c := WholeFrames(ps, n);
    if ps != [] && n >= |Frame(ps[0])| {
      WholeFramesIsMaximal(ps[1..], n - |Frame(ps[0])|);
      assert ps[..c][1..] == ps[1..][..c - 1];
      if c < |ps| {
        assert ps[..c + 1][1..] == ps[1..][..c];
      }
    } else if ps != [] {
      assert ps[..1] == [ps[0]];
      FramesOne(ps[0]);
    }
  }

  /** If the connection is cut after any number of bytes, exactly the whole frames before
      the cut have been echoed; the end is clean unless the cut falls inside a payload. */
  lemma {:induction false} EchoOfCut(ps: seq<Packet>, n: nat)
    requires AllWellFormed(ps) && n <= |Frames(ps)|
    ensures var c := WholeFrames(ps, n);
            && EchoStream(Frames(ps)[..n]).output == Headers(ps[..c])
            && (EchoStream(Frames(ps)[..n]).end == CleanEof
                <==> n - |Frames(ps[..c])| < DATA_HEADER_SIZE)
            && EchoStream(Frames(ps)[..n]).end in {CleanEof, TruncatedPayload}
  {
    hide DecodeHeader, EncodeHeader;
    var c := WholeFrames(ps, n);
    WholeFramesIsMaximal(ps, n);
    var tail := Frames(ps)[|Frames(ps[..c])|..n];
    assert ps == ps[..c] + ps[c..];
    FramesConcat(ps[..c], ps[c..]);
    assert Frames(ps)[..n] == Frames(ps[..c]) + tail;
    if c < |ps| {
      assert ps[..c + 1] == ps[..c] + [ps[c]];
      FramesConcat(ps[..c], [ps[c]]);
      FramesOne(ps[c]);
    } else {
      assert ps[..c] == ps;
    }
    EchoOfFrames(ps[..c], tail);
    EchoOfPart(ps, c, tail);
    assert Headers(ps[..c]) + [] == Headers(ps[..c]);
  }

  /** If the connection fails there instead, as much is echoed and the end is never clean. */
  lemma EchoOfFailure(ps: seq<Packet>, n: nat)
    requires AllWellFormed(ps) && n <= |Frames(ps)|
    ensures Interrupted(EchoStream(Frames(ps)[..n]), true) == Echoed(Headers(ps[..WholeFrames(ps, n)]), ConnectionLost)
    ensures Interrupted(EchoStream(Frames(ps)[..n]), false) == EchoStream(Frames(ps)[..n])
  {
    hide EchoStream, Frames, Headers;
    EchoOfCut(ps, n);
  }

  /** A proper prefix of a frame is never echoed. */
  lemma EchoOfPart(ps: seq<Packet>, c: nat, tail: Bytes)
    requires AllWellFormed(ps) && c <= |ps|
    requires c == |ps| ==> tail == []
    requires c < |ps| ==> |tail| < |Frame(ps[c])| && tail <= Frames(ps[c..])
    ensures EchoStream(tail) == Echoed([], if |tail| < DATA_HEADER_SIZE then CleanEof else TruncatedPayload)
  {
    hide DecodeHeader, EncodeHeader;
    if |tail| >= DATA_HEADER_SIZE {
      var p := ps[c];
      assert ps[c..][0] == p;
      assert tail[..DATA_HEADER_SIZE] == Frames(ps[c..])[..DATA_HEADER_SIZE] == EncodeHeader(p.header);
      assert p.WellFormed();
      DecodeOfEncode(p.header);
    }
  }
}
