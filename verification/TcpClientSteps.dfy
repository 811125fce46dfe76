/** The client half of the preservation proof, and the theorem for every schedule. */
module TcpClientSteps {
  import opened Base
  import opened Wire
  import opened Framing
  import opened Stream
  import opened TcpSession
  import opened TcpInvariant
  import opened TcpPreservation

  // ----- the size of `pending`

  lemma {:induction false} RangeSize(ks: set<nat>, lo: nat, hi: nat)
    requires lo <= hi && forall k :: k in ks <==> lo < k <= hi
    ensures |ks| == hi - lo
  {
    if lo == hi {
      assert ks == {};
    } else {
      RangeSize(ks - {hi}, lo, hi - 1);
    }
  }

  /** While the loop runs, `pending` is a gapless range of sequence numbers. */
  lemma PendingIsRange(run: Run, s: State)
    requires CountInv(s) && PendingInv(run, s.client, s.hist, Acked(s))
    requires !s.client.pc.Flush? && !s.client.pc.Done?
    ensures forall k :: k in s.client.pending <==> Acked(s) < k <= |s.hist.inserts|
    ensures |s.client.pending| == |s.hist.inserts| - Acked(s)
  {
    assert s.client.events[Acked(s)..] == [];
    RangeSize(s.client.pending.Keys, Acked(s), |s.hist.inserts|);
  }

  // ----- steps

  /** The program points at which acknowledgements are taken off the queue. */
  predicate Popping(pc: Pc) {
    pc.TryRecv? || pc.WindowWait?
  }

  /** Every acknowledgement the client takes off the queue belongs to a pending packet. */
  lemma AckHitsPending(run: Run, s: State)
    requires Inv(run, s) && Popping(s.client.pc) && s.net.ackQueue != []
    ensures s.net.ackQueue[0] == Ack(Acked(s) + 1, s.net.recvs[Acked(s)])
    ensures s.net.ackQueue[0].seqNo in s.client.pending
  {
    hide EncodeHeader, DecodeHeader, Frames, Headers, SentPackets;
    PendingIsRange(run, s);
    assert s.net.ackQueue[0] == Ack(Acked(s) + 1, s.net.recvs[Acked(s)]);
  }

  /** Reporting packet `acked + 1` moves it from `pending` to the end of the log. */
  lemma PopPending(run: Run, c: Client, hist: History, acked: nat, e: PacketEvent, pc: Pc)
    requires PendingInv(run, c, hist, acked) && Popping(c.pc) && (pc.Top? || pc.TryRecv?)
    requires acked + 1 in c.pending
    ensures PendingInv(run, c.(pc := pc, pending := c.pending - {acked + 1}, events := c.events + [e]), hist, acked + 1)
  {
    var events' := c.events + [e];
    assert c.events[acked..] == [] && events'[acked + 1..] == [];
  }

  lemma PopLog(run: Run, events: seq<PacketEvent>, hist: History, recvs: seq<nat>, acked: nat)
    requires LogInv(run, events, hist, recvs, acked) && |events| == acked
    requires acked < |recvs| && acked < |hist.inserts|
    ensures LogInv(run, events + [AckedEvent(run, Ack(acked + 1, recvs[acked]), FlightOf(run, hist, acked + 1))],
                   hist, recvs, acked + 1)
  {
  }

  lemma WireBounds(s: State)
    requires WireInv(s.net, s.hist.sent, Unwritten(s.client.pc))
    ensures |s.net.recvs| <= s.net.echoed <= |s.hist.sent|
  {
  }

  lemma PopPreserves(run: Run, s: State, pc: Pc)
    requires Inv(run, s) && Popping(s.client.pc) && s.net.ackQueue != []
    requires pc.Top? || pc.TryRecv?
    ensures Inv(run, PopAck(run, s, pc))
  {
    hide EncodeHeader, DecodeHeader, Frames, Headers, SentPackets, WireInv, PendingInv, LogInv, PaceInv;
    WireBounds(s);
    AckHitsPending(run, s);
    PaceIgnoresPc(run, s, PopAck(run, s, pc));
    PendingFlight(run, s.client, s.hist, Acked(s), Acked(s) + 1);
    var a := s.net.ackQueue[0];
    PopPending(run, s.client, s.hist, Acked(s), AckedEvent(run, a, s.client.pending[a.seqNo]), pc);
    PopLog(run, s.client.events, s.hist, s.net.recvs, Acked(s));
    WireIgnoresQueue(s.net, s.net.ackQueue[1..], s.hist.sent);
  }

  lemma PendingFlight(run: Run, c: Client, hist: History, acked: int, k: nat)
    requires PendingInv(run, c, hist, acked) && k in c.pending
    ensures 0 < k <= |hist.inserts| <= |hist.stamps| && c.pending[k] == FlightOf(run, hist, k)
    ensures !c.pc.Flush? && !c.pc.Done? ==> |c.events| == acked
  {
  }

  lemma WireIgnoresQueue(net: Net, queue: seq<Ack>, sent: seq<Packet>)
    requires WireInv(net, sent, [])
    ensures WireInv(net.(ackQueue := queue), sent, [])
  {
    hide EncodeHeader, Frames, Headers;
  }

  /** Later stamps and inserts do not disturb what is pending or already reported. */
  lemma HistoryGrows(run: Run, c: Client, pc: Pc, hist: History, hist': History, recvs: seq<nat>, acked: int)
    requires PendingInv(run, c, hist, acked) && LogInv(run, c.events, hist, recvs, acked)
    requires hist.stamps <= hist'.stamps && hist.inserts == hist'.inserts
    requires !c.pc.Flush? && !c.pc.Done? && !pc.Flush? && !pc.Done?
    ensures forall nextSend, seqNo ::
              PendingInv(run, c.(pc := pc, nextSend := nextSend, seqNo := seqNo), hist', acked)
    ensures LogInv(run, c.events, hist', recvs, acked)
  {
  }

  lemma StampPreserves(run: Run, s: State, n: nat)
    requires Inv(run, s) && s.client.pc.Stamp?
    ensures Inv(run, ClientStep(run, s, n))
  {
    hide EncodeHeader, DecodeHeader, Frames, Headers, SentPackets, WireInv, PaceInv, Frame, PendingInv, LogInv;
    var s' := ClientStep(run, s, n);
    WireBounds(s);
    HistoryGrows(run, s.client, s'.client.pc, s.hist, s'.hist, s.net.recvs, Acked(s));
    assert s'.client == s.client.(pc := s'.client.pc, nextSend := s.client.nextSend, seqNo := s'.client.seqNo);
    if s'.client.pc.Writing? {
      StampPreservesWire(run, s, n);
    }
    StampPreservesPace(run, s, n);
  }

  lemma StampPreservesWire(run: Run, s: State, n: nat)
    requires Inv(run, s) && s.client.pc.Stamp? && ClientStep(run, s, n).client.pc.Writing?
    ensures var s' := ClientStep(run, s, n);
            SentPackets(run, s'.hist) && WireInv(s'.net, s'.hist.sent, Unwritten(s'.client.pc))
  {
    hide EncodeHeader, DecodeHeader, Frames, Headers, Frame, PaceInv, PendingInv, LogInv;
    var sent, p := s.hist.sent, NewPacket(run, s.client.seqNo + 1, s.net.now);
    AppendPacket(s.net, sent, p);
  }

  /** A freshly stamped frame joins the stream behind everything already sent. */
  lemma AppendPacket(net: Net, sent: seq<Packet>, p: Packet)
    requires WireInv(net, sent, [])
    ensures WireInv(net, sent + [p], Frame(p))
  {
    hide EncodeHeader, DecodeHeader, Frames, Headers, Frame;
    var e := net.echoed;
    forall i | 0 <= i <= |sent|
      ensures Frames((sent + [p])[i..]) == Frames(sent[i..]) + Frame(p)
    {
      assert (sent + [p])[i..] == sent[i..] + [p];
      FramesConcat(sent[i..], [p]);
      FramesOne(p);
    }
    assert (sent + [p])[|net.recvs|..EchoesBegun(net)] == sent[|net.recvs|..EchoesBegun(net)];
    match net.phase
    case ReadingHeader(got) =>
      assert got + net.up + [] == got + net.up;
    case ReadingPayload(_, need) =>
      assert net.up + [] == net.up;
      assert net.up + Frame(p) == RestOfFrame(sent, e, need) + Frame(p) == RestOfFrame(sent + [p], e, need);
    case Echoing(_) =>
      assert net.up + [] == net.up;
  }

  lemma StampPreservesPace(run: Run, s: State, n: nat)
    requires Inv(run, s) && s.client.pc.Stamp?
    ensures PaceInv(run, ClientStep(run, s, n))
  {
    hide EncodeHeader, DecodeHeader, Frames, Headers, Frame, SentPackets, WireInv, PendingInv, LogInv;
  }

  lemma WriteMovesBytes(net: Net, sent: seq<Packet>, rest: Bytes, k: nat)
    requires WireInv(net, sent, rest) && k <= |rest|
    ensures WireInv(net.(up := net.up + rest[..k]), sent, rest[k..])
    ensures k == |rest| ==> rest[k..] == []
  {
    hide EncodeHeader, DecodeHeader, Frames, Headers;
    Shift(net.up, rest, [], k);
    assert net.up + rest[..k] + rest[k..] == net.up + rest;
    if net.phase.ReadingHeader? {
      var got := net.phase.got;
      assert got + (net.up + rest[..k]) + rest[k..] == got + net.up + rest;
    }
  }

  lemma InsertPending(run: Run, c: Client, hist: History, acked: int, recvs: seq<nat>, now: nat)
    requires PendingInv(run, c, hist, acked) && LogInv(run, c.events, hist, recvs, acked)
    requires |hist.inserts| == |hist.stamps| - 1 == c.seqNo - 1
    requires c.pc == Insert(hist.stamps[|hist.stamps| - 1])
    ensures var flight := Flight(c.pc.sendNs, now >= run.WarmupUntil());
            var hist' := hist.(inserts := hist.inserts + [now]);
            && PendingInv(run, c.(pc := Top, pending := c.pending[c.seqNo := flight]), hist', acked)
            && LogInv(run, c.events, hist', recvs, acked)
  {
    assert c.events[acked..] == [];
  }

  lemma InsertPreserves(run: Run, s: State, n: nat)
    requires Inv(run, s) && s.client.pc.Insert?
    ensures Inv(run, ClientStep(run, s, n))
  {
    hide EncodeHeader, DecodeHeader, Frames, Headers, WireInv, PendingInv, LogInv;
    WireBounds(s);
    InsertPending(run, s.client, s.hist, Acked(s), s.net.recvs, s.net.now);
    assert WireInv(s.net, s.hist.sent, []);
  }

  /** Moving the program point, the schedule or the drain count leaves the log alone. */
  lemma ControlLog(run: Run, c: Client, hist: History, recvs: seq<nat>, acked: int, pc: Pc, nextSend: nat, d: nat)
    requires PendingInv(run, c, hist, acked) && LogInv(run, c.events, hist, recvs, acked)
    requires !c.pc.Flush? && !c.pc.Done? && !pc.Done?
    ensures PendingInv(run, c.(pc := pc, nextSend := nextSend), hist.(drainRounds := d), acked)
    ensures LogInv(run, c.events, hist.(drainRounds := d), recvs, acked)
  {
  }

  predicate Control(s: State) {
    var pc := s.client.pc;
    || pc.Top? || pc.CheckEnd? || pc.CheckDeadline? || pc.DrainSleep? || pc.Pace?
    || (Popping(pc) && s.net.ackQueue == [])
  }

  /** The steps that only move the program point, wait, or count a drain sleep. */
  lemma ControlPreserves(run: Run, s: State, n: nat)
    requires Inv(run, s) && Control(s)
    ensures Inv(run, ClientStep(run, s, n))
  {
    hide EncodeHeader, DecodeHeader, Frames, Headers, WireInv, LogInv, PendingInv, QueueInv, TimeInv, PaceInv,
         SentPackets, CountInv, WindowInv, EndInv, DrainInv;
    var s' := ClientStep(run, s, n);
    ControlBounds(run, s, n);
    ControlLog(run, s.client, s.hist, s.net.recvs, Acked(s), s'.client.pc, s'.client.nextSend, s'.hist.drainRounds);
    ControlTime(run, s.net, s.hist, s'.hist.drainRounds);
    ControlPace(run, s, n);
    assert s'.net == s.net && Unwritten(s'.client.pc) == Unwritten(s.client.pc) == [];
  }

  lemma ControlBounds(run: Run, s: State, n: nat)
    requires Control(s) && PendingInv(run, s.client, s.hist, Acked(s)) && TimeInv(s.net, s.hist)
    requires CountInv(s) && WindowInv(run, s) && EndInv(run, s) && DrainInv(run, s)
    ensures var s' := ClientStep(run, s, n);
            CountInv(s') && WindowInv(run, s') && EndInv(run, s') && DrainInv(run, s')
  {
    hide PendingInv, TimeInv, WindowInv, EndInv, DrainInv;
    PendingIsRange(run, s);
    NothingPending(s);
    ControlWindow(run, s, n);
    ControlEnd(run, s, n);
    ControlDrain(run, s, n);
  }

  lemma NothingPending(s: State)
    requires |s.client.pending| == |s.hist.inserts| - Acked(s)
    ensures s.client.pending == map[] <==> Acked(s) == |s.hist.inserts|
  {
  }

  /** The loop goes on to send only when there is room in the window. */
  lemma ControlWindow(run: Run, s: State, n: nat)
    requires Control(s) && WindowInv(run, s) && |s.client.pending| == |s.hist.inserts| - Acked(s)
    ensures WindowInv(run, ClientStep(run, s, n))
  {
  }

  /** It goes on to send only before the end, and gives up only when nothing is pending or
      the drain deadline has passed. */
  lemma ControlEnd(run: Run, s: State, n: nat)
    requires Control(s) && EndInv(run, s) && DrainInv(run, s) && TimeInv(s.net, s.hist)
    requires s.client.pending == map[] <==> Acked(s) == |s.hist.inserts|
    ensures EndInv(run, ClientStep(run, s, n))
  {
  }

  lemma ControlDrain(run: Run, s: State, n: nat)
    requires Control(s) && DrainInv(run, s)
    ensures DrainInv(run, ClientStep(run, s, n))
  {
  }

  lemma ControlTime(run: Run, net: Net, hist: History, d: nat)
    requires SentPackets(run, hist) && TimeInv(net, hist)
    ensures SentPackets(run, hist.(drainRounds := d)) && TimeInv(net, hist.(drainRounds := d))
  {
  }

  /** The schedule advances by one slot exactly when the send slot has been reached. */
  lemma ControlPace(run: Run, s: State, n: nat)
    requires PaceInv(run, s) && Control(s)
    ensures PaceInv(run, ClientStep(run, s, n))
  {
    match run.Delay()
    case None =>
    case Some(d) =>
      assert (s.client.seqNo + 1) * d == s.client.seqNo * d + d;
  }

  lemma WritePreserves(run: Run, s: State, n: nat)
    requires Inv(run, s) && s.client.pc.Writing?
    ensures Inv(run, ClientStep(run, s, n))
  {
    hide EncodeHeader, DecodeHeader, Frames, Headers, SentPackets, WireInv, TimeInv, QueueInv, LogInv, PendingInv, PaceInv;
    var Writing(_, rest) := s.client.pc;
    var k := Min(n, |rest|);
    WriteMovesBytes(s.net, s.hist.sent, rest, k);
    var up := s.net.up + rest[..k];
    UpIsIrrelevant(s.net, up, s.hist);
    var s' := ClientStep(run, s, n);
    ControlLog(run, s.client, s.hist, s.net.recvs, Acked(s), s'.client.pc, s.client.nextSend, s.hist.drainRounds);
    assert PaceInv(run, s') by { PaceIgnoresPc(run, s, s'); }
  }

  lemma UpIsIrrelevant(net: Net, up: Bytes, hist: History)
    requires QueueInv(net) && TimeInv(net, hist)
    ensures QueueInv(net.(up := up)) && TimeInv(net.(up := up), hist)
  {
  }

  lemma PaceIgnoresPc(run: Run, s: State, s': State)
    requires PaceInv(run, s) && !s.client.pc.Stamp? && !s.client.pc.Failed? && !s'.client.pc.Stamp?
    requires s'.hist == s.hist && s'.client.seqNo == s.client.seqNo && s'.client.nextSend == s.client.nextSend
    ensures PaceInv(run, s')
  {
  }

  lemma FlushLog(run: Run, c: Client, hist: History, recvs: seq<nat>, acked: int, n: nat)
    requires PendingInv(run, c, hist, acked) && LogInv(run, c.events, hist, recvs, acked)
    requires c.pc.Flush? && n in c.pending
    ensures var events := c.events + [LostEvent(run, n, c.pending[n])];
            && PendingInv(run, c.(pending := c.pending - {n}, events := events), hist, acked)
            && LogInv(run, events, hist, recvs, acked)
  {
    var e := LostEvent(run, n, c.pending[n]);
    var tail := c.events[acked..];
    assert (c.events + [e])[acked..] == tail + [e];
    assert !Reported(tail, n);
    forall i | acked <= i < |c.events| ensures c.events[i].seqNo != n {
      assert c.events[i] == tail[i - acked];
    }
    forall k | acked < k <= |hist.inserts|
      ensures Reported(tail + [e], k) <==> Reported(tail, k) || k == n
    {
      if Reported(tail, k) {
        var i :| 0 <= i < |tail| && tail[i].seqNo == k;
        assert (tail + [e])[i].seqNo == k;
      }
      assert (tail + [e])[|tail|].seqNo == n;
    }
  }

  lemma FlushEnds(run: Run, c: Client, hist: History, acked: int)
    requires PendingInv(run, c, hist, acked) && c.pc.Flush? && c.pending == map[]
    ensures PendingInv(run, c.(pc := Done), hist, acked)
  {
  }

  lemma FlushPreserves(run: Run, s: State, n: nat)
    requires Inv(run, s) && s.client.pc.Flush?
    ensures Inv(run, ClientStep(run, s, n))
  {
    hide EncodeHeader, DecodeHeader, Frames, Headers, SentPackets, WireInv, TimeInv, QueueInv, LogInv, PendingInv;
    if s.client.pending == map[] {
      FlushEnds(run, s.client, s.hist, Acked(s));
    } else if n in s.client.pending {
      FlushLog(run, s.client, s.hist, s.net.recvs, Acked(s), n);
    }
  }

  // ----- all schedules

  lemma NextPreserves(run: Run, s: State, a: Act)
    requires Inv(run, s)
    ensures Inv(run, Next(run, s, a))
  {
    hide EncodeHeader, DecodeHeader, Frames, Headers, Inv, EnvStep, PopAck;
    match a
    case Env(e) => EnvPreserves(run, s, e);
    case WriteError => WriteErrorPreserves(run, s);
    case Step(n) =>
      match s.client.pc
      case Stamp => StampPreserves(run, s, n);
      case Writing(_, _) => WritePreserves(run, s, n);
      case Insert(_) => InsertPreserves(run, s, n);
      case Flush => FlushPreserves(run, s, n);
      case Done =>
      case Failed(_) =>
      case TryRecv => if s.net.ackQueue != [] { PopPreserves(run, s, TryRecv); } else { ControlPreserves(run, s, n); }
      case WindowWait(_) => if s.net.ackQueue != [] { PopPreserves(run, s, Top); } else { ControlPreserves(run, s, n); }
      case _ => ControlPreserves(run, s, n);
  }

  lemma WriteErrorPreserves(run: Run, s: State)
    requires Inv(run, s)
    ensures Inv(run, Next(run, s, WriteError))
  {
    hide EncodeHeader, DecodeHeader, Frames, Headers, SentPackets, WireInv, TimeInv, QueueInv;
    if s.client.pc.Writing? {
      ControlLog(run, s.client, s.hist, s.net.recvs, Acked(s), Failed(s.client.pc.rest), s.client.nextSend, s.hist.drainRounds);
    }
  }

  lemma InitWire(run: Run)
    ensures WireInv(Init(run).net, [], [])
  {
  }

  lemma InitPending(run: Run)
    ensures PendingInv(run, Init(run).client, Init(run).hist, 0)
  {
  }

  lemma InitInv(run: Run)
    ensures Inv(run, Init(run))
  {
    hide EncodeHeader, DecodeHeader, WireInv, PendingInv;
    InitWire(run);
    var none: seq<PacketEvent> := [];
    assert none[0..] == [];
    assert PendingInv(run, Init(run).client, Init(run).hist, 0) by { InitPending(run); }
  }

  /** Every state of every schedule satisfies the invariant. */
  lemma {:induction false} ExecInv(run: Run, acts: seq<Act>)
    ensures Inv(run, Exec(run, acts))
  {
    hide Inv, Next, Init;
    if acts == [] {
      InitInv(run);
    } else {
      ExecInv(run, acts[..|acts| - 1]);
      NextPreserves(run, Exec(run, acts[..|acts| - 1]), acts[|acts| - 1]);
    }
  }
}
