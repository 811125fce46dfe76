/** Every step of a TCP stream preserves the invariant, so it holds of every run. */
module TcpPreservation {
  import opened Base
  import opened Wire
  import opened Framing
  import opened Stream
  import opened TcpSession
  import opened TcpInvariant

  // ----- the byte pipes

  /** The first packet of a nonempty list leads both its frames and its headers. */
  lemma Uncons(ps: seq<Packet>, i: nat)
    requires i < |ps|
    ensures Frames(ps[i..]) == EncodeHeader(ps[i].header) + (ps[i].payload + Frames(ps[i + 1..]))
    ensures Headers(ps[i..]) == EncodeHeader(ps[i].header) + Headers(ps[i + 1..])
  {
    assert ps[i..][0] == ps[i] && ps[i..][1..] == ps[i + 1..];
    assert Frames(ps[i..]) == Frame(ps[i]) + Frames(ps[i + 1..]);
  }

  lemma HeadersUncons(ps: seq<Packet>, lo: nat, hi: nat)
    requires lo < hi <= |ps|
    ensures Headers(ps[lo..hi]) == EncodeHeader(ps[lo].header) + Headers(ps[lo + 1..hi])
  {
    assert ps[lo..hi][0] == ps[lo] && ps[lo..hi][1..] == ps[lo + 1..hi];
  }

  lemma HeadersSnoc(ps: seq<Packet>, lo: nat, hi: nat)
    requires lo <= hi < |ps|
    ensures Headers(ps[lo..hi + 1]) == Headers(ps[lo..hi]) + EncodeHeader(ps[hi].header)
  {
    assert ps[lo..hi + 1] == ps[lo..hi] + [ps[hi]];
    FramesConcat(ps[lo..hi], [ps[hi]]);
    FramesOne(ps[hi]);
  }

  /** Equal streams split at equal lengths have equal parts. */
  lemma Split(a: Bytes, b: Bytes, c: Bytes, d: Bytes)
    requires |a| == |c| && a + b == c + d
    ensures a == c && b == d
  {
    assert a == (a + b)[..|a|] == c;
    assert b == (a + b)[|a|..] == d;
  }

  /** Reading `k` bytes moves them from one side of a stream to the other. */
  lemma Shift(got: Bytes, wire: Bytes, rest: Bytes, k: nat)
    requires k <= |wire|
    ensures (got + wire[..k]) + wire[k..] + rest == got + wire + rest
    ensures (got + wire[..k]) + (wire[k..] + rest) == got + wire + rest
  {
    assert wire == wire[..k] + wire[k..];
  }

  /** A complete header is the next packet's, and its payload and the later frames follow. */
  lemma HeaderComplete(got: Bytes, up: Bytes, unwritten: Bytes, sent: seq<Packet>, e: nat)
    requires AllWellFormed(sent) && e <= |sent|
    requires |got| == DATA_HEADER_SIZE && got + up + unwritten == Frames(sent[e..])
    ensures e < |sent| && got == EncodeHeader(sent[e].header)
    ensures DecodeHeader(got) == Ok(sent[e].header)
    ensures up + unwritten == RestOfFrame(sent, e, |sent[e].payload|)
  {
    assert sent[e..] != [];
    var p := sent[e];
    Uncons(sent, e);
    assert got + up + unwritten == got + (up + unwritten);
    Split(got, up + unwritten, EncodeHeader(p.header), p.payload + Frames(sent[e + 1..]));
    assert p.WellFormed();
    DecodeOfEncode(p.header);
    assert p.payload[|p.payload| - |p.payload|..] == p.payload;
  }

  lemma RestOfNothing(sent: seq<Packet>, e: nat)
    requires e < |sent|
    ensures RestOfFrame(sent, e, 0) == Frames(sent[e + 1..])
  {
    assert sent[e].payload[|sent[e].payload|..] == [];
  }

  lemma PayloadRead(up: Bytes, unwritten: Bytes, sent: seq<Packet>, e: nat, need: nat, k: nat)
    requires e < |sent| && k <= need <= |sent[e].payload| && k <= |up|
    requires up + unwritten == RestOfFrame(sent, e, need)
    ensures up[k..] + unwritten == RestOfFrame(sent, e, need - k)
  {
    var left := sent[e].payload[|sent[e].payload| - need..];
    var tail := Frames(sent[e + 1..]);
    assert up + unwritten == up[..k] + (up[k..] + unwritten);
    assert left + tail == left[..k] + (left[k..] + tail);
    Split(up[..k], up[k..] + unwritten, left[..k], left[k..] + tail);
    assert left[k..] == sent[e].payload[|sent[e].payload| - (need - k)..];
  }

  lemma EchoBegins(net: Net, sent: seq<Packet>, header: Bytes)
    requires DownInv(net, sent) && !net.phase.Echoing? && net.echoed < |sent|
    requires header == EncodeHeader(sent[net.echoed].header)
    ensures DownInv(net.(phase := Echoing(header)), sent)
  {
    HeadersSnoc(sent, |net.recvs|, net.echoed);
    assert net.ackBuf + net.down + [] == net.ackBuf + net.down;
  }

  predicate SameAcks(net: Net, net': Net) {
    net'.now == net.now && net'.recvs == net.recvs && net'.ackQueue == net.ackQueue
  }

  predicate SameFlags(net: Net, net': Net) {
    net'.serverUp == net.serverUp && net'.readerUp == net.readerUp
  }

  /** Until the header is complete, or when it is, the client's side of the pipe is
      accounted for. */
  lemma HeaderBytesArrive(got: Bytes, up: Bytes, k: nat, e: nat, sent: seq<Packet>, unwritten: Bytes)
    requires AllWellFormed(sent) && UpInv(ReadingHeader(got), e, up, sent, unwritten)
    requires k <= |up| && k <= DATA_HEADER_SIZE - |got|
    ensures var got', up' := got + up[..k], up[k..];
            if |got'| < DATA_HEADER_SIZE then UpInv(ReadingHeader(got'), e, up', sent, unwritten)
            else
              && e < |sent|
              && got' == EncodeHeader(sent[e].header) && DecodeHeader(got') == Ok(sent[e].header)
              && sent[e].header.payloadLen == |sent[e].payload|
              && UpInv(if sent[e].payload != [] then ReadingPayload(got', |sent[e].payload|) else Echoing(got'),
                       e, up', sent, unwritten)
  {
    hide EncodeHeader, DecodeHeader, Frames, Headers;
    var got', up' := got + up[..k], up[k..];
    Shift(got, up, unwritten, k);
    if |got'| == DATA_HEADER_SIZE {
      HeaderComplete(got', up', unwritten, sent, e);
      assert sent[e].WellFormed();
      RestOfNothing(sent, e);
    }
  }

  lemma ServerReadsHeader(net: Net, n: nat, sent: seq<Packet>, unwritten: Bytes)
    requires AllWellFormed(sent) && WireInv(net, sent, unwritten) && net.phase.ReadingHeader?
    ensures WireInv(ServerReads(net, n), sent, unwritten)
    ensures ServerReads(net, n).serverUp == net.serverUp
  {
    hide EncodeHeader, DecodeHeader, Frames, Headers, UpInv;
    var got := net.phase.got;
    assert |got| < DATA_HEADER_SIZE by { GotIsPartial(got, net.echoed, net.up, sent, unwritten); }
    var k := Portion(n, DATA_HEADER_SIZE - |got|, |net.up|);
    HeaderBytesArrive(got, net.up, k, net.echoed, sent, unwritten);
    if |got + net.up[..k]| == DATA_HEADER_SIZE {
      EchoBegins(net, sent, got + net.up[..k]);
    }
  }

  lemma GotIsPartial(got: Bytes, e: nat, up: Bytes, sent: seq<Packet>, unwritten: Bytes)
    requires UpInv(ReadingHeader(got), e, up, sent, unwritten)
    ensures |got| < DATA_HEADER_SIZE
  {
  }

  lemma PayloadBytesArrive(header: Bytes, need: nat, up: Bytes, k: nat, e: nat, sent: seq<Packet>, unwritten: Bytes)
    requires UpInv(ReadingPayload(header, need), e, up, sent, unwritten) && k <= |up| && k <= need
    ensures UpInv(if k == need then Echoing(header) else ReadingPayload(header, need - k), e, up[k..], sent, unwritten)
    ensures 0 < need && e < |sent| && header == EncodeHeader(sent[e].header)
  {
    hide EncodeHeader, Frames, Headers;
    PayloadRead(up, unwritten, sent, e, need, k);
    RestOfNothing(sent, e);
  }

  lemma ServerReadsPayload(net: Net, n: nat, sent: seq<Packet>, unwritten: Bytes)
    requires WireInv(net, sent, unwritten) && net.phase.ReadingPayload?
    ensures WireInv(ServerReads(net, n), sent, unwritten)
  {
    hide EncodeHeader, DecodeHeader, Frames, Headers, UpInv;
    var ReadingPayload(header, need) := net.phase;
    var k := Portion(n, need, |net.up|);
    PayloadBytesArrive(header, need, net.up, k, net.echoed, sent, unwritten);
    EchoBegins(net, sent, header);
  }

  lemma ServerReadWire(net: Net, n: nat, sent: seq<Packet>, unwritten: Bytes)
    requires AllWellFormed(sent) && WireInv(net, sent, unwritten)
    ensures WireInv(ServerReads(net, n), sent, unwritten)
    ensures SameAcks(net, ServerReads(net, n)) && SameFlags(net, ServerReads(net, n))
  {
    hide EncodeHeader, DecodeHeader, Frames, Headers, WireInv;
    match net.phase
    case ReadingHeader(_) => ServerReadsHeader(net, n, sent, unwritten);
    case ReadingPayload(_, _) => ServerReadsPayload(net, n, sent, unwritten);
    case Echoing(_) =>
  }

  lemma ServerWriteWire(net: Net, n: nat, sent: seq<Packet>, unwritten: Bytes)
    requires WireInv(net, sent, unwritten)
    ensures WireInv(ServerWrites(net, n), sent, unwritten)
    ensures SameAcks(net, ServerWrites(net, n)) && SameFlags(net, ServerWrites(net, n))
  {
    hide EncodeHeader, DecodeHeader, Frames, Headers;
    match net.phase
    case Echoing(rest) =>
      var k := Min(n, |rest|);
      Shift(net.ackBuf + net.down, rest, [], k);
      assert net.ackBuf + (net.down + rest[..k]) == net.ackBuf + net.down + rest[..k];
      if k == |rest| {
        assert rest[..k] == rest && rest[k..] == [];
        assert [] + net.up == net.up;
      }
      assert net.ackBuf + net.down + rest + [] == net.ackBuf + net.down + rest;
      assert net.ackBuf + net.down + rest[..k] + rest[k..] + [] == net.ackBuf + net.down + rest[..k] + rest[k..];
    case _ =>
  }

  /** A complete acknowledgement is the next header in sequence. */
  lemma AckComplete(buf: Bytes, rest: Bytes, sent: seq<Packet>, r: nat, net: Net)
    requires AllWellFormed(sent) && DownInv(net, sent) && r == |net.recvs|
    requires |buf| == DATA_HEADER_SIZE && |rest| >= |EchoRest(net.phase)|
    requires net.phase.Echoing? ==> net.phase.rest != []
    requires buf + rest == Headers(sent[r..EchoesBegun(net)])
    ensures r < net.echoed && DecodeHeader(buf) == Ok(sent[r].header)
    ensures rest == Headers(sent[r + 1..EchoesBegun(net)])
  {
    var hi := EchoesBegun(net);
    HeadersLength(sent[r..hi]);
    assert r < net.echoed;
    HeadersUncons(sent, r, hi);
    Split(buf, rest, EncodeHeader(sent[r].header), Headers(sent[r + 1..hi]));
    assert sent[r].WellFormed();
    DecodeOfEncode(sent[r].header);
  }

  /** The reader never meets a header it cannot decode, and the one it decodes is the
      next in sequence. */
  lemma ReaderReadWire(net: Net, n: nat, sent: seq<Packet>, unwritten: Bytes)
    requires AllWellFormed(sent) && WireInv(net, sent, unwritten)
    ensures WireInv(ReaderReads(net, n), sent, unwritten)
    ensures ReaderReads(net, n).now == net.now && SameFlags(net, ReaderReads(net, n))
    ensures var net' := ReaderReads(net, n);
            || (net'.recvs == net.recvs && net'.ackQueue == net.ackQueue)
            || (&& |net.recvs| < |sent| && net'.recvs == net.recvs + [net.now]
                && net'.ackQueue == net.ackQueue + [Ack(sent[|net.recvs|].header.seqNo, net.now)])
  {
    hide EncodeHeader, DecodeHeader, Frames, Headers;
    var k := Portion(n, DATA_HEADER_SIZE - |net.ackBuf|, |net.down|);
    var buf, down' := net.ackBuf + net.down[..k], net.down[k..];
    var echo := EchoRest(net.phase);
    Shift(net.ackBuf, net.down, echo, k);
    if |buf| == DATA_HEADER_SIZE {
      AckComplete(buf, down' + echo, sent, |net.recvs|, net);
      assert [] + down' + echo == down' + echo;
    }
  }

  lemma SentAreWellFormed(run: Run, hist: History)
    requires SentPackets(run, hist)
    ensures AllWellFormed(hist.sent)
    ensures forall i :: 0 <= i < |hist.sent| ==> hist.sent[i].header.seqNo == i + 1
  {
  }

  // ----- the environment

  /** All that an environment step can do to the clock and the acknowledgements. */
  ghost predicate EnvEffect(net: Net, net': Net, sent: nat) {
    && net.now <= net'.now
    && ( || (net'.recvs == net.recvs && net'.ackQueue == net.ackQueue)
         || ( && |net.recvs| < sent && net'.now == net.now
              && net'.recvs == net.recvs + [net.now]
              && net'.ackQueue == net.ackQueue + [Ack(|net.recvs| + 1, net.now)]))
  }

  /** The clock and the two stop flags play no part in what the pipes hold. */
  lemma WireIgnores(net: Net, net': Net, sent: seq<Packet>, unwritten: Bytes)
    requires WireInv(net, sent, unwritten)
    requires net' == net.(now := net'.now, serverUp := net'.serverUp, readerUp := net'.readerUp)
    ensures WireInv(net', sent, unwritten)
  {
  }

  lemma EnvWire(net: Net, e: EnvAct, run: Run, hist: History, unwritten: Bytes)
    requires SentPackets(run, hist) && WireInv(net, hist.sent, unwritten)
    ensures WireInv(EnvStep(net, e), hist.sent, unwritten)
    ensures EnvEffect(net, EnvStep(net, e), |hist.sent|)
    ensures EnvStep(net, e).serverUp == (net.serverUp && e != ServerStops)
    ensures EnvStep(net, e).readerUp == (net.readerUp && e != ReaderStops)
  {
    hide EncodeHeader, DecodeHeader, Frames, Headers, WireInv, ServerReads, ServerWrites, ReaderReads;
    SentAreWellFormed(run, hist);
    match e
    case ServerRead(n) => ServerReadWire(net, n, hist.sent, unwritten);
    case ServerWrite(n) => ServerWriteWire(net, n, hist.sent, unwritten);
    case ReaderRead(n) => ReaderReadWire(net, n, hist.sent, unwritten);
    case _ => WireIgnores(net, EnvStep(net, e), hist.sent, unwritten);
  }

  lemma EnvQueue(net: Net, net': Net, hist: History)
    requires EnvEffect(net, net', |hist.sent|) && |hist.stamps| == |hist.sent|
    requires QueueInv(net) && TimeInv(net, hist)
    ensures QueueInv(net') && TimeInv(net', hist)
  {
    if net'.ackQueue != net.ackQueue {
      var shift := |net.recvs| - |net.ackQueue|;
      forall j | 0 <= j < |net'.ackQueue|
        ensures net'.ackQueue[j] == Ack(shift + j + 1, net'.recvs[shift + j])
      {
        if j < |net.ackQueue| {
          assert net.ackQueue[j] == Ack(shift + j + 1, net.recvs[shift + j]);
        }
      }
    }
  }

  /** Further acknowledgements do not disturb what is already reported. */
  lemma EnvLog(run: Run, events: seq<PacketEvent>, hist: History, recvs: seq<nat>, recvs': seq<nat>, acked: int)
    requires LogInv(run, events, hist, recvs, acked) && recvs <= recvs'
    ensures LogInv(run, events, hist, recvs', acked)
  {
  }

  /** The conditions on the clock survive its going on. */
  lemma ClockGoesOn(run: Run, s: State, net': Net)
    requires PaceInv(run, s) && EndInv(run, s) && DrainInv(run, s) && s.net.now <= net'.now
    requires |net'.recvs| - |net'.ackQueue| == Acked(s)
    ensures var s' := s.(net := net'); PaceInv(run, s') && EndInv(run, s') && DrainInv(run, s')
  {
  }

  lemma EnvPreserves(run: Run, s: State, e: EnvAct)
    requires Inv(run, s)
    ensures Inv(run, s.(net := EnvStep(s.net, e)))
  {
    hide EncodeHeader, DecodeHeader, Frames, Headers, WireInv, EnvStep, SentPackets, PendingInv, LogInv, PaceInv, EndInv,
         DrainInv;
    var net' := EnvStep(s.net, e);
    assert |s.hist.sent| == |s.hist.stamps|;
    EnvWire(s.net, e, run, s.hist, Unwritten(s.client.pc));
    EnvQueue(s.net, net', s.hist);
    assert Acked(s.(net := net')) == Acked(s);
    EnvLog(run, s.client.events, s.hist, s.net.recvs, net'.recvs, Acked(s));
    ClockGoesOn(run, s, net');
  }
}
