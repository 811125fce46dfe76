/** What every reachable state of a TCP stream satisfies. */
module TcpInvariant {
  import opened Base
  import opened Wire
  import opened Framing
  import opened Stream
  import opened TcpSession

  // ----- the invariant

  /** The number of acknowledgements the client has taken off the queue. */
  function Acked(s: State): int {
    |s.net.recvs| - |s.net.ackQueue|
  }

  /** The bytes of the current frame the client has stamped but not written. */
  function Unwritten(pc: Pc): Bytes {
    match pc
    case Writing(_, rest) => rest
    case Failed(rest) => rest
    case _ => []
  }

  predicate MidSend(pc: Pc) {
    pc.Writing? || pc.Insert?
  }

  ghost predicate SentPackets(run: Run, hist: History) {
    && |hist.sent| == |hist.stamps| < TWO_64
    && forall i :: 0 <= i < |hist.sent| ==> hist.sent[i] == NewPacket(run, i + 1, hist.stamps[i])
  }

  /** The bytes the server still has to write of the echo under way. */
  function EchoRest(phase: ServerPhase): Bytes {
    if phase.Echoing? then phase.rest else []
  }

  /** The number of packets whose echo has at least begun. */
  function EchoesBegun(net: Net): nat {
    net.echoed + if net.phase.Echoing? then 1 else 0
  }

  /** The last `need` payload bytes of a packet, then the frames that follow it. */
  function RestOfFrame(sent: seq<Packet>, i: nat, need: nat): Bytes
    requires i < |sent| && need <= |sent[i].payload|
  {
    sent[i].payload[|sent[i].payload| - need..] + Frames(sent[i + 1..])
  }

  /** Bytes on the way to the server, including those it holds of an unfinished header,
      are the frames it has yet to read. */
  ghost predicate UpInv(phase: ServerPhase, echoed: nat, up: Bytes, sent: seq<Packet>, unwritten: Bytes) {
    && echoed <= |sent|
    && match phase
       case ReadingHeader(got) =>
         && |got| < DATA_HEADER_SIZE
         && got + up + unwritten == Frames(sent[echoed..])
       case ReadingPayload(header, need) =>
         && echoed < |sent|
         && header == EncodeHeader(sent[echoed].header)
         && 0 < need <= |sent[echoed].payload|
         && up + unwritten == RestOfFrame(sent, echoed, need)
       case Echoing(rest) =>
         && echoed < |sent|
         && rest != []
         && up + unwritten == Frames(sent[echoed + 1..])
  }

  /** Bytes on the way back are the headers the reader has yet to stamp. */
  ghost predicate DownInv(net: Net, sent: seq<Packet>) {
    && |net.recvs| <= net.echoed && EchoesBegun(net) <= |sent|
    && |net.ackBuf| < DATA_HEADER_SIZE
    && net.ackBuf + net.down + EchoRest(net.phase) == Headers(sent[|net.recvs|..EchoesBegun(net)])
  }

  ghost predicate WireInv(net: Net, sent: seq<Packet>, unwritten: Bytes) {
    && UpInv(net.phase, net.echoed, net.up, sent, unwritten)
    && DownInv(net, sent)
  }

  /** The queue holds the latest stamped acknowledgements, numbered without a gap. */
  ghost predicate QueueInv(net: Net) {
    && |net.ackQueue| <= |net.recvs|
    && forall j :: 0 <= j < |net.ackQueue| ==>
         var i := |net.recvs| - |net.ackQueue| + j;
         net.ackQueue[j] == Ack(i + 1, net.recvs[i])
  }

  ghost predicate TimeInv(net: Net, hist: History) {
    && Nondecreasing(hist.stamps) && Nondecreasing(hist.inserts) && Nondecreasing(net.recvs)
    && (forall i :: 0 <= i < |hist.stamps| ==> hist.stamps[i] <= net.now)
    && (forall i :: 0 <= i < |hist.inserts| ==> hist.inserts[i] <= net.now)
    && (forall i :: 0 <= i < |net.recvs| ==> net.recvs[i] <= net.now)
    && (forall i :: 0 <= i < |net.recvs| && i < |hist.stamps| ==> hist.stamps[i] <= net.recvs[i])
  }

  function FlightOf(run: Run, hist: History, k: nat): Flight
    requires 0 < k <= |hist.inserts| <= |hist.stamps|
  {
    Flight(hist.stamps[k - 1], hist.inserts[k - 1] >= run.WarmupUntil())
  }

  ghost predicate CountInv(s: State) {
    var c, hist := s.client, s.hist;
    && c.seqNo == |hist.sent| == |hist.stamps|
    && (c.pc.Failed? ==> |hist.sent| - 1 <= |hist.inserts| <= |hist.sent|)
    && (c.pc.Writing? || c.pc.Insert? ==> hist.stamps != [] && c.pc.sendNs == hist.stamps[|hist.stamps| - 1])
    && (!c.pc.Failed? ==> |hist.inserts| == |hist.sent| - if MidSend(c.pc) then 1 else 0)
    && 0 <= Acked(s) <= |hist.inserts|
  }

  /** `pending` holds exactly the inserted packets not yet reported, and the log is the
      acknowledged packets in order followed by lost ones. */
  ghost predicate PendingInv(run: Run, c: Client, hist: History, acked: int) {
    && |hist.inserts| <= |hist.stamps|
    && 0 <= acked <= |c.events|
    && (forall k :: k in c.pending ==> acked < k <= |hist.inserts| && c.pending[k] == FlightOf(run, hist, k))
    && (forall k :: acked < k <= |hist.inserts| ==> (k in c.pending <==> !Reported(c.events[acked..], k)))
    && (!c.pc.Flush? && !c.pc.Done? ==> |c.events| == acked)
    && (c.pc.Done? ==> c.pending == map[])
  }

  ghost predicate Reported(log: seq<PacketEvent>, k: nat) {
    exists i :: 0 <= i < |log| && log[i].seqNo == k
  }

  ghost predicate LogInv(run: Run, events: seq<PacketEvent>, hist: History, recvs: seq<nat>, acked: int) {
    && 0 <= acked <= |events| && acked <= |recvs| && acked <= |hist.inserts| <= |hist.stamps|
    && (forall i :: 0 <= i < acked ==>
          events[i] == AckedEvent(run, Ack(i + 1, recvs[i]), FlightOf(run, hist, i + 1)))
    && (forall i :: acked <= i < |events| ==>
          && acked < events[i].seqNo <= |hist.inserts|
          && events[i] == LostEvent(run, events[i].seqNo, FlightOf(run, hist, events[i].seqNo)))
    && (forall i, j :: acked <= i < j < |events| ==> events[i].seqNo != events[j].seqNo)
  }

  ghost predicate WindowInv(run: Run, s: State) {
    var inflight := |s.hist.inserts| - Acked(s);
    && inflight <= run.MaxInflight()
    && (MidSend(s.client.pc) || s.client.pc.Pace? || s.client.pc.Stamp? || s.client.pc.Failed?
        ==> inflight < run.MaxInflight())
  }

  ghost predicate PaceInv(run: Run, s: State) {
    match run.Delay()
    case None => true
    case Some(d) =>
      && PacedFrom(s.hist.stamps, run.firstSlot, d)
      && (s.client.pc.Failed? || s.client.nextSend == run.firstSlot + Slots(s) * d)
      && (s.client.pc.Stamp? ==> s.net.now >= run.firstSlot + s.client.seqNo * d)
  }

  function Slots(s: State): nat {
    s.client.seqNo + if s.client.pc.Stamp? then 1 else 0
  }

  /** Only the last packet can be stamped at or after the end of the run. */
  ghost predicate EndInv(run: Run, s: State) {
    && (s.client.pc.Flush? || s.client.pc.Done? ==>
          s.net.now >= run.End() && (Acked(s) < |s.hist.inserts| ==> s.net.now >= run.DrainDeadline()))
    && (forall i :: 0 <= i < |s.hist.stamps| - 1 ==> s.hist.stamps[i] < run.End())
    && (s.client.pc.Pace? || s.client.pc.Stamp? ==>
          forall i :: 0 <= i < |s.hist.stamps| ==> s.hist.stamps[i] < run.End())
  }

  ghost predicate DrainInv(run: Run, s: State) {
    var d := s.hist.drainRounds;
    && (s.client.pc.CheckDeadline? ==> s.net.now >= run.End())
    && (d > 0 ==>
         && (d - 1) * MILLISECOND < run.timeout
         && (if s.client.pc.DrainSleep? then s.client.pc.until else s.net.now) >= run.End() + d * MILLISECOND)
    && (s.client.pc.DrainSleep? ==> d > 0)
  }

  ghost predicate Inv(run: Run, s: State) {
    && SentPackets(run, s.hist)
    && WireInv(s.net, s.hist.sent, Unwritten(s.client.pc))
    && QueueInv(s.net)
    && TimeInv(s.net, s.hist)
    && CountInv(s)
    && PendingInv(run, s.client, s.hist, Acked(s))
    && LogInv(run, s.client.events, s.hist, s.net.recvs, Acked(s))
    && WindowInv(run, s)
    && PaceInv(run, s)
    && EndInv(run, s)
    && DrainInv(run, s)
  }
}
