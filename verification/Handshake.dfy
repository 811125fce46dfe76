/** A whole server connection, from the handshake to the end of the echo loop, and what
    the client's side of the handshake can conclude from the answer. */
module Handshake {
  import opened Base
  import opened Wire
  import opened Framing
  import opened Echo
  import opened Control

  // ----- the server

  /** The verdict on the first two control messages: session, acceptance and reason. */
  function Judge(codec: Codec, token: Option<string>, hello: ControlMessage, start: ControlMessage): ControlMessage {
    if hello.Hello? && start.StartSession? then
      if hello.version != PROTOCOL_VERSION then
        Ack(start.sessionId, false, Some("protocol version mismatch: " + Decimal(hello.version)))
      else if !TokenAccepted(codec, token, hello.tokenHash) then
        Ack(start.sessionId, false, Some("token rejected"))
      else
        Ack(start.sessionId, true, None)
    else
      Ack(0, false, Some("invalid control flow"))
  }

  /** The verdicts: which session the acknowledgement names, and which reason it gives. */
  lemma Verdicts(codec: Codec, token: Option<string>, hello: ControlMessage, start: ControlMessage)
    ensures var ack := Judge(codec, token, hello, start);
            && ack.Ack? && (ack.accepted <==> ack.reason == None)
            && (if hello.Hello? && start.StartSession? then
                  var matches := token.None?
                    || (hello.tokenHash.Some? && hello.tokenHash.value == codec.hashToken(token.value));
                  && ack.sessionId == start.sessionId
                  && (ack.accepted <==> hello.version == 1 && matches)
                  && (hello.version != 1 ==> ack.reason == Some("protocol version mismatch: " + Decimal(hello.version)))
                  && (hello.version == 1 && !matches ==> ack.reason == Some("token rejected"))
                else
                  ack == Ack(0, false, Some("invalid control flow")))
  {
    hide Decimal;
  }

  datatype ConnectionEnd =
    | HandshakeFailed(error: ControlError)
    | Rejected
    | DataEnded(end: EchoEnd)

  datatype Served = Served(output: Bytes, end: ConnectionEnd)

  /** Everything the server writes on a connection whose whole input is `input`, after which
      the connection ends or, if `broken`, fails. */
  function Serve(codec: Codec, token: Option<string>, input: Bytes, broken: bool): Served {
    match ParseControl(codec, input)
    case Err(e) => Served([], HandshakeFailed(e))
    case Ok((hello, afterHello)) =>
      match ParseControl(codec, afterHello)
      case Err(e) => Served([], HandshakeFailed(e))
      case Ok((start, data)) =>
        var ack := Judge(codec, token, hello, start);
        match ControlFrame(codec, ack)
        case Err(e) => Served([], HandshakeFailed(e))
        case Ok(frame) =>
          if !ack.accepted then Served(frame, Rejected)
          else
            var echoed := Interrupted(EchoStream(data), broken);
            Served(frame + echoed.output, DataEnded(echoed.end))
  }

  /** Handles one connection whose bytes arrive in arbitrary pieces. */
  method HandleConnection(codec: Codec, token: Option<string>, reader: SegmentedReader)
    returns (output: Bytes, end: ConnectionEnd)
    modifies reader
    ensures Served(output, end) == Serve(codec, token, old(reader.Contents()), reader.broken)
  {
    hide Flatten, ParseControl, EchoStream, ControlFrame;
    var hello := ReadControlFrame(codec, reader);
    if hello.Err? {
      return [], HandshakeFailed(hello.error);
    }
    var start := ReadControlFrame(codec, reader);
    if start.Err? {
      return [], HandshakeFailed(start.error);
    }
    var ack;
    match (hello.value, start.value) {
      case (Hello(version, _, tokenHash, _), StartSession(sessionId, _, _, _, _, _, _)) =>
        if version != PROTOCOL_VERSION {
          ack := Ack(sessionId, false, Some("protocol version mismatch: " + Decimal(version)));
        } else {
          var ok := TokenMatches(codec, token, tokenHash);
          ack := if ok then Ack(sessionId, true, None) else Ack(sessionId, false, Some("token rejected"));
        }
      case _ =>
        ack := Ack(0, false, Some("invalid control flow"));
    }
    var frame := ControlFrame(codec, ack);
    if frame.Err? {
      return [], HandshakeFailed(frame.error);
    }
    if !ack.accepted {
      return frame.value, Rejected;
    }
    var echoed, dataEnd := HandleData(reader);
    return frame.value + echoed, DataEnded(dataEnd);
  }

  // ----- the client

  datatype Credentials = Credentials(hello: ControlMessage, start: ControlMessage)

  /** The two messages a client opens with. */
  function Opening(codec: Codec, streamName: string, token: Option<string>, transport: string, sessionId: U64,
                   durationMs: U64, payloadBytes: nat, rateBps: Option<U64>): (c: Credentials)
    ensures c.hello.Hello? && c.hello.capabilities == [transport, "multistream"]
    ensures c.start.StartSession? && c.start.streams == 1 && c.start.intervalMs == 100
  {
    Credentials(
      Hello(PROTOCOL_VERSION, streamName,
            match token case None => None case Some(t) => Some(codec.hashToken(t)),
            [transport, "multistream"]),
      StartSession(sessionId, transport, 1, durationMs, payloadBytes, 100, rateBps))
  }

  /** The answer a client takes as leave to send data. */
  predicate ValidAck(msg: ControlMessage) {
    msg.Ack? && msg.accepted
  }

  /** The client reaches its data phase when the answer at the head of its input is an
      accepting acknowledgement. */
  predicate ReachesData(codec: Codec, answer: Bytes) {
    var parsed := ParseControl(codec, answer);
    parsed.Ok? && ValidAck(parsed.value.0)
  }

  /** Whatever bytes reach the server, a client that takes its answer as leave to send
      does so exactly if those bytes opened with a Hello of the right version and token
      followed by a StartSession. */
  lemma HandshakeAgreement(codec: Codec, token: Option<string>, input: Bytes, broken: bool)
    requires codec.Faithful()
    requires Serve(codec, token, input, broken).output != []
    ensures ReachesData(codec, Serve(codec, token, input, broken).output) <==> Authorized(codec, token, input)
    ensures Authorized(codec, token, input) <==> Serve(codec, token, input, broken).end.DataEnded?
  {
    hide EchoStream, ParseControl, ControlFrame;
    var (hello, rest) := ParseControl(codec, input).value;
    var ack := Judge(codec, token, hello, ParseControl(codec, rest).value.0);
    var served := Serve(codec, token, input, broken);
    ControlRoundTrip(codec, ack, served.output[|ControlFrame(codec, ack).value|..]);
    assert served.output == ControlFrame(codec, ack).value + served.output[|ControlFrame(codec, ack).value|..];
  }

  /** Unless two readable messages have come, nothing is written and nothing read further. */
  lemma FailedHandshakeIsSilent(codec: Codec, token: Option<string>, input: Bytes, broken: bool)
    requires var hello := ParseControl(codec, input);
             hello.Err? || ParseControl(codec, hello.value.1).Err?
    ensures var hello := ParseControl(codec, input);
            var error := if hello.Err? then hello.error else ParseControl(codec, hello.value.1).error;
            Serve(codec, token, input, broken) == Served([], HandshakeFailed(error))
  {
    hide ParseControl, EchoStream;
  }

  predicate Authorized(codec: Codec, token: Option<string>, input: Bytes) {
    match ParseControl(codec, input)
    case Err(_) => false
    case Ok((hello, rest)) =>
      && hello.Hello? && hello.version == PROTOCOL_VERSION && TokenAccepted(codec, token, hello.tokenHash)
      && ParseControl(codec, rest).Ok? && ParseControl(codec, rest).value.0.StartSession?
  }

  /** The client's opening, followed by its packets, is answered by an acknowledgement that
      accepts exactly when the server has no token or both tokens hash alike; the packets'
      headers follow it if and only if it accepts. */
  lemma SessionOutcome(codec: Codec, serverToken: Option<string>, streamName: string, clientToken: Option<string>,
                       transport: string, sessionId: U64, durationMs: U64, payloadBytes: nat, rateBps: Option<U64>,
                       packets: seq<Packet>, broken: bool)
    requires codec.Faithful() && AllWellFormed(packets)
    requires var c := Opening(codec, streamName, clientToken, transport, sessionId, durationMs, payloadBytes, rateBps);
             && ControlFrame(codec, c.hello).Ok? && ControlFrame(codec, c.start).Ok?
             && ControlFrame(codec, Judge(codec, serverToken, c.hello, c.start)).Ok?
    ensures var c := Opening(codec, streamName, clientToken, transport, sessionId, durationMs, payloadBytes, rateBps);
            var opening := ControlFrame(codec, c.hello).value + ControlFrame(codec, c.start).value;
            var served := Serve(codec, serverToken, opening + Frames(packets), broken);
            var accepted := serverToken.None?
              || (clientToken.Some? && codec.hashToken(clientToken.value) == codec.hashToken(serverToken.value));
            var ack := Judge(codec, serverToken, c.hello, c.start);
            && ack.accepted == accepted
            && served.output == ControlFrame(codec, ack).value + (if accepted then Headers(packets) else [])
            && served.end == if !accepted then Rejected
                             else DataEnded(if broken then ConnectionLost else CleanEof)
  {
    hide EchoStream, ParseControl, ControlFrame, Frames, Headers;
    var c := Opening(codec, streamName, clientToken, transport, sessionId, durationMs, payloadBytes, rateBps);
    var hello, start := ControlFrame(codec, c.hello).value, ControlFrame(codec, c.start).value;
    var data := Frames(packets);
    assert hello + start + data == hello + (start + data);
    ControlRoundTrip(codec, c.hello, start + data);
    ControlRoundTrip(codec, c.start, data);
    EchoOfFrames(packets, []);
    assert data + [] == data;
    EchoOfNothing();
    assert Headers(packets) + [] == Headers(packets);
  }

  lemma EchoOfNothing()
    ensures EchoStream([]) == Echoed([], CleanEof)
  {
  }
}
