/** Control messages, their framing on a byte stream and in datagrams, and the token check. */
module Control {
  import opened Base
  import opened Wire
  import opened Echo

  type Hash = h: seq<bv8> | |h| == 32 witness seq(32, _ => 0)

  datatype ControlMessage =
    | Hello(version: U16, clientName: string, tokenHash: Option<Hash>, capabilities: seq<string>)
    | StartSession(sessionId: U64, transport: string, streams: U16, durationMs: U64,
                   payloadBytes: nat, intervalMs: U64, rateBps: Option<U64>)
    | Ack(sessionId: U64, accepted: bool, reason: Option<string>)
    | StopSession(sessionId: U64)

  /** The serializer of message bodies, and the token hash, as the code finds them. */
  datatype Codec = Codec(
    serialize: ControlMessage -> Bytes,
    deserialize: Bytes -> Option<ControlMessage>,
    hashToken: string -> Hash)
  {
    /** Serialized messages deserialize to themselves. */
    ghost predicate Faithful() {
      forall m :: deserialize(serialize(m)) == Some(m)
    }
  }

  // ----- the token check

  predicate TokenAccepted(codec: Codec, expected: Option<string>, got: Option<Hash>) {
    expected.None? || (got.Some? && got.value == codec.hashToken(expected.value))
  }

  lemma OrOfXor(d: bv8, a: bv8, b: bv8)
    ensures d | (a ^ b) == 0 <==> d == 0 && a == b
  {
  }

  /** Compares all bytes before deciding: the accumulated difference is zero exactly when
      the two hashes agree. */
  method TokenMatches(codec: Codec, expected: Option<string>, got: Option<Hash>) returns (ok: bool)
    ensures ok <==> TokenAccepted(codec, expected, got)
  {
    if expected.None? {
      return true;
    }
    if got.None? {
      return false;
    }
    var expectedHash, gotHash := codec.hashToken(expected.value), got.value;
    var diff: bv8 := 0;
    for i := 0 to |expectedHash|
      invariant diff == 0 <==> expectedHash[..i] == gotHash[..i]
    {
      OrOfXor(diff, expectedHash[i], gotHash[i]);
      assert expectedHash[..i + 1] == expectedHash[..i] + [expectedHash[i]];
      assert gotHash[..i + 1] == gotHash[..i] + [gotHash[i]];
      diff := diff | (expectedHash[i] ^ gotHash[i]);
    }
    assert expectedHash[..|expectedHash|] == expectedHash && gotHash[..|gotHash|] == gotHash;
    return diff == 0;
  }

  // ----- length-prefixed frames on a stream

  /** Why there is no message: among the reasons, a stream that ended or failed too early. */
  datatype ControlError = FrameTooLarge | StreamEnded | BadBody

  /** The bytes of a control frame: a little-endian length, then the body. */
  function ControlFrame(codec: Codec, msg: ControlMessage): Result<Bytes, ControlError> {
    var body := codec.serialize(msg);
    if |body| < 0x1_0000_0000 then Ok(LittleEndian(|body|, 4) + body) else Err(FrameTooLarge)
  }

  /** The message at the head of a stream, and the bytes after it. */
  function ParseControl(codec: Codec, input: Bytes): Result<(ControlMessage, Bytes), ControlError> {
    if |input| < 4 then Err(StreamEnded)
    else
      var len := FromLittleEndian(input[..4]);
      if |input| < 4 + len then Err(StreamEnded)
      else
        match codec.deserialize(input[4..4 + len])
        case None => Err(BadBody)
        case Some(msg) => Ok((msg, input[4 + len..]))
  }

  /** A control frame is the length of the body in four little-endian bytes, then the body; a
      control datagram is the prefix, then the body. */
  lemma ControlLayout(codec: Codec, msg: ControlMessage)
    ensures var body, frame := codec.serialize(msg), ControlFrame(codec, msg);
            if |body| >= 0x1_0000_0000 then frame == Err(FrameTooLarge)
            else
              && frame.Ok? && |frame.value| == 4 + |body|
              && frame.value[..4] == LittleEndian(|body|, 4) && frame.value[4..] == body
    ensures ControlDatagram(codec, msg)[..12] == CTRL_PREFIX && ControlDatagram(codec, msg)[12..] == codec.serialize(msg)
  {
  }

  /** A frame written to a stream is read back whole and leaves the rest untouched. */
  lemma ControlRoundTrip(codec: Codec, msg: ControlMessage, rest: Bytes)
    requires codec.Faithful() && ControlFrame(codec, msg).Ok?
    ensures ParseControl(codec, ControlFrame(codec, msg).value + rest) == Ok((msg, rest))
  {
    var body := codec.serialize(msg);
    assert codec.deserialize(body) == Some(msg);
    Widths();
    LittleEndianRoundTrip(|body|, 4);
    var input := ControlFrame(codec, msg).value + rest;
    assert input[..4] == LittleEndian(|body|, 4);
    assert input[4..4 + |body|] == body;
    assert input[4 + |body|..] == rest;
  }

  /** A frame cut anywhere is a stream that ended too early, and one whose body cannot be read
      is refused; neither is taken for another message. */
  lemma BadControlFrames(codec: Codec, body: Bytes, k: nat, rest: Bytes)
    requires |body| < 0x1_0000_0000
    ensures var frame := LittleEndian(|body|, 4) + body;
            && (k < |frame| ==> ParseControl(codec, frame[..k]) == Err(StreamEnded))
            && (codec.deserialize(body) == None ==> ParseControl(codec, frame + rest) == Err(BadBody))
  {
    hide FromLittleEndian;
    Widths();
    LittleEndianRoundTrip(|body|, 4);
    var length, frame := LittleEndian(|body|, 4), LittleEndian(|body|, 4) + body;
    if 4 <= k < |frame| {
      assert frame[..k][..4] == length;
    }
    assert (frame + rest)[..4] == length;
    assert (frame + rest)[4..4 + |body|] == body;
  }

  /** Reads one control frame from a stream that arrives in pieces. */
  method ReadControlFrame(codec: Codec, reader: SegmentedReader) returns (r: Result<ControlMessage, ControlError>)
    modifies reader
    ensures var parsed := ParseControl(codec, old(reader.Contents()));
            if parsed.Ok? then r == Ok(parsed.value.0) && reader.Contents() == parsed.value.1
            else r == Err(parsed.error)
  {
    hide Flatten, FromLittleEndian;
    ghost var input := reader.Contents();
    var lenBuf := new Byte[4](_ => 0);
    var read := reader.ReadExact(lenBuf, 4);
    if !read.Filled? {
      return Err(StreamEnded);
    }
    assert lenBuf[..] == lenBuf[..4] == input[..4];
    var len := FromLittleEndian(lenBuf[..]);
    var payload := new Byte[len](_ => 0);
    read := reader.ReadExact(payload, len);
    if !read.Filled? {
      return Err(StreamEnded);
    }
    assert payload[..] == payload[..len] == input[4..][..len] == input[4..4 + len];
    match codec.deserialize(payload[..]) {
      case None => return Err(BadBody);
      case Some(msg) => return Ok(msg);
    }
  }

  // ----- control datagrams

  function ControlDatagram(codec: Codec, msg: ControlMessage): Bytes {
    CTRL_PREFIX + codec.serialize(msg)
  }

  function ParseDatagram(codec: Codec, frame: Bytes): Option<ControlMessage> {
    if !StartsWith(frame, CTRL_PREFIX) then None else codec.deserialize(frame[|CTRL_PREFIX|..])
  }

  lemma DatagramRoundTrip(codec: Codec, msg: ControlMessage)
    requires codec.Faithful()
    ensures ParseDatagram(codec, ControlDatagram(codec, msg)) == Some(msg)
  {
    var frame := ControlDatagram(codec, msg);
    assert frame[..|CTRL_PREFIX|] == CTRL_PREFIX;
    assert frame[|CTRL_PREFIX|..] == codec.serialize(msg);
  }
}
