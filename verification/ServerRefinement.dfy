/** The server of the step system, reading and writing byte by byte while more bytes arrive,
    is the echo loop. */
module ServerRefinement {
  import opened Base
  import opened Wire
  import opened Echo
  import opened TcpSession

  ghost predicate PhaseOk(phase: ServerPhase) {
    match phase
    case ReadingHeader(got) => |got| < DATA_HEADER_SIZE
    case ReadingPayload(header, need) => header != [] && need > 0
    case Echoing(rest) => rest != []
  }

  /** What the server has yet to write if `up` is all it will still read. */
  function StillToWrite(serverUp: bool, phase: ServerPhase, up: Bytes): Bytes {
    if !serverUp then []
    else
      match phase
      case ReadingHeader(got) => EchoStream(got + up).output
      case ReadingPayload(header, need) =>
        if |up| < need then [] else header + EchoStream(up[need..]).output
      case Echoing(rest) => rest + EchoStream(up).output
  }

  /** What the server has yet to write if `later` arrives behind what is on the wire. */
  function Due(net: Net, later: Bytes): Bytes {
    StillToWrite(net.serverUp, net.phase, net.up + later)
  }

  /** The bytes a complete header leaves to be written. */
  lemma AfterHeader(got: Bytes, up: Bytes)
    requires |got| == DATA_HEADER_SIZE
    ensures DecodeHeader(got).Err? ==> EchoStream(got + up).output == []
    ensures DecodeHeader(got).Ok? ==>
              var n := DecodeHeader(got).value.payloadLen;
              EchoStream(got + up).output == if |up| < n then [] else got + EchoStream(up[n..]).output
  {
    hide DecodeHeader;
    var input := got + up;
    assert input[..DATA_HEADER_SIZE] == got;
    if DecodeHeader(got).Ok? && |up| >= DecodeHeader(got).value.payloadLen {
      var n := DecodeHeader(got).value.payloadLen;
      assert input[DATA_HEADER_SIZE + n..] == up[n..];
    }
  }

  lemma ReadRefines(net: Net, n: nat, later: Bytes)
    requires net.serverUp && PhaseOk(net.phase)
    ensures var net' := ServerReads(net, n);
            net'.down == net.down && Due(net', later) == Due(net, later)
            && (net'.serverUp ==> PhaseOk(net'.phase))
  {
    hide EchoStream, DecodeHeader;
    match net.phase
    case ReadingHeader(got) =>
      var k := Portion(n, DATA_HEADER_SIZE - |got|, |net.up|);
      var got', up' := got + net.up[..k], net.up[k..] + later;
      assert got' + up' == got + (net.up + later);
      if |got'| == DATA_HEADER_SIZE {
        AfterHeader(got', up');
        if DecodeHeader(got').Ok? && DecodeHeader(got').value.payloadLen == 0 {
          assert up'[0..] == up';
        }
      }
    case ReadingPayload(header, need) =>
      var k := Portion(n, need, |net.up|);
      if |net.up + later| >= need {
        assert (net.up[k..] + later)[need - k..] == (net.up + later)[need..];
      }
    case Echoing(_) =>
  }

  lemma WriteRefines(net: Net, n: nat, later: Bytes)
    requires net.serverUp && PhaseOk(net.phase)
    ensures var net' := ServerWrites(net, n);
            net'.down + Due(net', later) == net.down + Due(net, later)
            && net'.serverUp && PhaseOk(net'.phase)
  {
    hide EchoStream;
    if net.phase.Echoing? {
      var rest := net.phase.rest;
      Portions(net.down, rest, EchoStream(net.up + later).output, Min(n, |rest|));
      assert [] + (net.up + later) == net.up + later;
    }
  }

  lemma Portions(down: Bytes, rest: Bytes, later: Bytes, k: nat)
    requires k <= |rest|
    ensures down + rest[..k] + (rest[k..] + later) == down + (rest + later)
    ensures k == |rest| ==> down + rest + later == down + (rest + later)
  {
    assert rest == rest[..k] + rest[k..];
  }

  /** What happens at the server's end: it reads or writes a portion, or bytes arrive. */
  datatype ServerAct = Reads(n: nat) | Writes(n: nat) | Arrives(bytes: Bytes)

  function ServerStep(net: Net, a: ServerAct): Net {
    match a
    case Reads(n) => EnvStep(net, ServerRead(n))
    case Writes(n) => EnvStep(net, ServerWrite(n))
    case Arrives(bytes) => net.(up := net.up + bytes)
  }

  function ServerRun(net: Net, acts: seq<ServerAct>): Net
    decreases |acts|
  {
    if acts == [] then net else ServerRun(ServerStep(net, acts[0]), acts[1..])
  }

  function Received(acts: seq<ServerAct>): Bytes {
    if acts == [] then []
    else (if acts[0].Arrives? then acts[0].bytes else []) + Received(acts[1..])
  }

  lemma StepRefines(net: Net, a: ServerAct, later: Bytes)
    requires net.serverUp ==> PhaseOk(net.phase)
    ensures var net' := ServerStep(net, a);
            && net'.down + Due(net', later) == net.down + Due(net, (if a.Arrives? then a.bytes else []) + later)
            && (net'.serverUp ==> PhaseOk(net'.phase))
  {
    hide ServerReads, ServerWrites, StillToWrite, PhaseOk;
    assert [] + later == later;
    match a
    case Reads(n) => if net.serverUp { ReadRefines(net, n, later); }
    case Writes(n) => if net.serverUp { WriteRefines(net, n, later); }
    case Arrives(bytes) => assert net.up + bytes + later == net.up + (bytes + later);
  }

  /** However its reads, its writes and the arrivals are portioned and interleaved, the bytes
      a server has written and still has to write are what the echo loop gives for all bytes
      it received, taken as one input. */
  lemma {:induction false} StepServerRefinesEcho(net: Net, acts: seq<ServerAct>)
    requires net.serverUp ==> PhaseOk(net.phase)
    ensures var end := ServerRun(net, acts);
            && end.down + Due(end, []) == net.down + Due(net, Received(acts))
            && (end.serverUp ==> PhaseOk(end.phase))
    decreases |acts|
  {
    hide ServerStep, Due, PhaseOk;
    if acts != [] {
      StepRefines(net, acts[0], Received(acts[1..]));
      StepServerRefinesEcho(ServerStep(net, acts[0]), acts[1..]);
    }
  }

  lemma IdleWritesNothing(net: Net)
    requires net.up == [] && !net.phase.Echoing? && (net.serverUp ==> PhaseOk(net.phase))
    ensures Due(net, []) == []
  {
    hide DecodeHeader;
  }

  /** At every moment a fresh server has written a prefix of what the echo loop writes for
      the bytes received so far; once it has used them up and finished its echoes, all of it. */
  lemma FinishedServerIsEcho(net: Net, acts: seq<ServerAct>)
    requires net.serverUp && net.phase == ReadingHeader([]) && net.up == [] && net.down == []
    ensures var end, whole := ServerRun(net, acts), EchoStream(Received(acts)).output;
            && end.down <= whole
            && (end.up == [] && !end.phase.Echoing? ==> end.down == whole)
  {
    hide EchoStream, ServerRun, Received;
    StepServerRefinesEcho(net, acts);
    var end, input := ServerRun(net, acts), Received(acts);
    assert [] + ([] + input) == input && [] + EchoStream(input).output == EchoStream(input).output;
    if end.up == [] && !end.phase.Echoing? {
      IdleWritesNothing(end);
      assert end.down + [] == end.down;
    }
  }
}
