/**
 What the TCP client does as time goes on, for every schedule: how one state of a run
 follows from an earlier one. These properties say that the client does its work, where the
 invariant says that it does no harm.
 */
module TcpTraces {
  import opened Base
  import opened Wire
  import opened Framing
  import opened Stream
  import opened TcpSession
  import opened TcpInvariant
  import opened TcpClientSteps
  import opened TcpTheorems
  import opened TcpPlay
  import ServerRefinement

  lemma ExecSnoc(run: Run, acts: seq<Act>, a: Act)
    ensures Exec(run, acts + [a]) == Next(run, Exec(run, acts), a)
  {
    hide Next;
    assert (acts + [a])[..|acts|] == acts;
  }

  // ----- acknowledgements are taken

  /** The acknowledgements stamped so far, `r` at least, are reported, or the round under way
      has not finished taking them. */
  ghost predicate TakesAll(s: State, r: nat) {
    Acked(s) >= r || ((s.client.pc.Top? || s.client.pc.TryRecv?) && |s.net.recvs| >= r)
  }

  lemma TakesAllStep(run: Run, s: State, a: Act, r: nat)
    requires Inv(run, s) && TakesAll(s, r)
    ensures TakesAll(Next(run, s, a), r)
  {
    hide EncodeHeader, DecodeHeader, Frames, Headers, LogInv, PaceInv, TimeInv, WireInv, EndInv, DrainInv, SentPackets,
         EnvStep, NewPacket, PendingInv, WindowInv, QueueInv;
    match a
    case Env(e) => EnvKeepsAcks(run, s, e);
    case WriteError =>
    case Step(n) =>
      TopLeavesNothing(run, s);
  }

  lemma EnvKeepsAcks(run: Run, s: State, e: EnvAct)
    requires Inv(run, s)
    ensures var net' := EnvStep(s.net, e);
            |net'.recvs| - |net'.ackQueue| == Acked(s) && |net'.recvs| >= |s.net.recvs|
  {
    hide EncodeHeader, DecodeHeader, Frames, Headers, LogInv, PaceInv, TimeInv, WireInv, EndInv, DrainInv, EnvStep, PendingInv;
    TcpPreservation.EnvWire(s.net, e, run, s.hist, Unwritten(s.client.pc));
  }

  /** When the loop is left from its top, everything sent has been acknowledged. */
  lemma TopLeavesNothing(run: Run, s: State)
    requires Inv(run, s)
    ensures s.client.pc.Top? && s.client.pending == map[] ==> Acked(s) == |s.hist.inserts| == |s.hist.sent|
    ensures |s.net.recvs| <= |s.hist.sent|
  {
    hide EncodeHeader, DecodeHeader, Frames, Headers, LogInv, PaceInv, TimeInv, EndInv, DrainInv;
    if s.client.pc.Top? {
      PendingIsRange(run, s);
    }
  }

  /** Every acknowledgement stamped before a round begins is reported in that round: once the
      round has gone on from taking acknowledgements, and at every later time. */
  lemma {:induction false} AcksAreTaken(run: Run, before: seq<Act>, more: seq<Act>)
    requires Exec(run, before).client.pc.Top?
    ensures var r, s := |Exec(run, before).net.recvs|, Exec(run, before + more);
            Acked(s) >= r || ((s.client.pc.Top? || s.client.pc.TryRecv?) && |s.net.recvs| >= r)
  {
    hide Inv, Next, Exec, Acked;
    var r := |Exec(run, before).net.recvs|;
    if more == [] {
      assert before + more == before;
      assert TakesAll(Exec(run, before), r);
    } else {
      var init, a := more[..|more| - 1], more[|more| - 1];
      assert before + more == (before + init) + [a];
      AcksAreTaken(run, before, init);
      ExecInv(run, before + init);
      assert TakesAll(Exec(run, before + init), r);
      TakesAllStep(run, Exec(run, before + init), a, r);
      ExecSnoc(run, before + init, a);
    }
  }

  /** So a run that ends normally reports every packet as acknowledged whose acknowledgement
      was stamped before some round began: only what came later can be lost. */
  lemma StampedIsReported(run: Run, before: seq<Act>, more: seq<Act>)
    requires Exec(run, before).client.pc.Top? && Exec(run, before + more).client.pc.Done?
    ensures var r, log := |Exec(run, before).net.recvs|, Exec(run, before + more).client.events;
            r <= |log| && forall i :: 0 <= i < r ==> log[i].seqNo == i + 1 && log[i].recvNs.Some?
  {
    hide Exec, FinishedLog;
    AcksAreTaken(run, before, more);
    FinishedRun(run, before + more);
    FinishedFront(run, Exec(run, before + more));
  }

  lemma FinishedFront(run: Run, s: State)
    requires 0 <= Acked(s)
    requires FinishedLog(s.client.events, run.streamId, run.payload, s.client.seqNo, Acked(s),
                         WarmCount(s.hist.inserts, run.WarmupUntil()))
    ensures Acked(s) <= |s.client.events|
    ensures forall i :: 0 <= i < Acked(s) ==> s.client.events[i].seqNo == i + 1 && s.client.events[i].recvNs.Some?
  {
  }

  lemma {:induction false} BurstTakesAll(run: Run, s: State, acts: seq<EnvAct>, r: nat)
    requires Reachable(run, s) && TakesAll(s, r)
    ensures TakesAll(AfterBurst(s, acts), r)
  {
    hide Reachable, Inv, EnvStep, TakesAll;
    if acts == [] {
      assert AfterBurst(s, acts) == s;
    } else {
      var init := acts[..|acts| - 1];
      BurstTakesAll(run, s, init, r);
      BurstReachable(run, s, init);
      var t := AfterBurst(s, init);
      ReachableInv(run, t);
      TakesAllStep(run, t, Env(acts[|acts| - 1]), r);
    }
  }

  lemma ReachableInv(run: Run, s: State)
    requires Reachable(run, s)
    ensures Inv(run, s)
  {
    hide Inv, Exec;
    var acts :| s == Exec(run, acts);
    ExecInv(run, acts);
  }

  lemma AwakeTakesAll(run: Run, s: State, r: nat)
    requires TakesAll(s, r)
    ensures TakesAll(Awake(run, s), r)
  {
    hide WakeTime;
  }

  lemma OnwardTakesAll(run: Run, schedule: Schedule, p: Progress, pick: nat, r: nat)
    requires Reachable(run, p.s) && TakesAll(p.s, r)
    ensures TakesAll(Onward(run, schedule, p, pick).s, r)
  {
    hide Reachable, Inv, TakesAll, Next, Awake, AfterBurst;
    if Interruptible(p.s.client.pc) {
      var burst := schedule(p.bursts);
      var s := AfterBurst(p.s, burst.acts);
      BurstTakesAll(run, p.s, burst.acts, r);
      BurstReachable(run, p.s, burst.acts);
      AwakeTakesAll(run, s, r);
      AwakeReachable(run, s);
      ReachableInv(run, Awake(run, s));
      TakesAllStep(run, Awake(run, s), ActAfter(burst, Awake(run, s).client.pc, pick), r);
    } else {
      ReachableInv(run, p.s);
      TakesAllStep(run, p.s, Step(pick), r);
    }
  }

  lemma {:induction false} PlayTakesAll(run: Run, schedule: Schedule, picks: seq<nat>, k: nat)
    requires k <= |picks| && Play(run, schedule, picks[..k]).s.client.pc.Top?
    ensures TakesAll(Play(run, schedule, picks).s, |Play(run, schedule, picks[..k]).s.net.recvs|)
  {
    hide Reachable, Onward, Play;
    var r := |Play(run, schedule, picks[..k]).s.net.recvs|;
    if k == |picks| {
      assert picks[..k] == picks;
    } else {
      var init, pick := picks[..|picks| - 1], picks[|picks| - 1];
      assert init[..k] == picks[..k] && picks == init + [pick];
      PlayTakesAll(run, schedule, init, k);
      PlayReachable(run, schedule, init);
      OnwardTakesAll(run, schedule, Play(run, schedule, init), pick, r);
      PlaySnoc(run, schedule, init, pick);
    }
  }

  /** The same of a stream that follows its schedule: what was stamped when some round began
      is reported as acknowledged in the log it returns. */
  lemma OutcomeReportsStamped(run: Run, schedule: Schedule, picks: seq<nat>, log: seq<PacketEvent>, k: nat)
    requires Ends(run, Play(run, schedule, picks).s, true, log)
    requires k <= |picks| && Play(run, schedule, picks[..k]).s.client.pc.Top?
    ensures var r := |Play(run, schedule, picks[..k]).s.net.recvs|;
            r <= |log| && forall i :: 0 <= i < r ==> log[i].seqNo == i + 1 && log[i].recvNs.Some?
  {
    hide Play, FinishedLog, Reachable;
    PlayTakesAll(run, schedule, picks, k);
    PlayReachable(run, schedule, picks);
    var s := Play(run, schedule, picks).s;
    FinishedReachable(run, s);
    FinishedFront(run, s);
  }

  lemma FinishedReachable(run: Run, s: State)
    requires Reachable(run, s) && s.client.pc.Done?
    ensures 0 <= Acked(s)
    ensures FinishedLog(s.client.events, run.streamId, run.payload, s.client.seqNo, Acked(s),
                        WarmCount(s.hist.inserts, run.WarmupUntil()))
  {
    hide Exec, FinishedLog;
    var acts :| s == Exec(run, acts);
    FinishedRun(run, acts);
  }

  // ----- packets are sent

  /** There is time left and room in the window. */
  ghost predicate CanSend(run: Run, s: State) {
    && s.client.pc.CheckEnd?
    && s.net.now < run.start + run.warmup + run.duration
    && |s.client.pending| < run.MaxInflight()
  }

  /** From a round that finds time left and room in the window, the client does nothing else
      before it has stamped the next packet, unless the numbers are used up. */
  lemma {:induction false} SendsWhenItCan(run: Run, before: seq<Act>, n: nat, more: seq<Act>)
    requires CanSend(run, Exec(run, before))
    ensures var c, s := Exec(run, before).client, Exec(run, before + [Step(n)] + more);
            || s.client.seqNo > c.seqNo
            || (s.client.seqNo == c.seqNo && (s.client.pc.Pace? || s.client.pc.Stamp?))
            || (s.client.seqNo == c.seqNo == TWO_64 - 1 && s.client.pc.Failed?)
  {
    hide Exec;
    var first := before + [Step(n)];
    ExecSnoc(run, before, Step(n));
    if more == [] {
      assert first + more == first;
    } else {
      var init, a := more[..|more| - 1], more[|more| - 1];
      assert first + more == (first + init) + [a];
      SendsWhenItCan(run, before, n, init);
      ExecSnoc(run, first + init, a);
      ExecInv(run, first + init);
      SendingGoesOn(run, Exec(run, first + init), a, Exec(run, before).client.seqNo);
    }
  }

  lemma SendingGoesOn(run: Run, s: State, a: Act, n: nat)
    requires Inv(run, s)
    requires || s.client.seqNo > n
             || (s.client.seqNo == n && (s.client.pc.Pace? || s.client.pc.Stamp?))
             || (s.client.seqNo == n == TWO_64 - 1 && s.client.pc.Failed?)
    ensures var s' := Next(run, s, a);
            || s'.client.seqNo > n
            || (s'.client.seqNo == n && (s'.client.pc.Pace? || s'.client.pc.Stamp?))
            || (s'.client.seqNo == n == TWO_64 - 1 && s'.client.pc.Failed?)
  {
    hide EncodeHeader, DecodeHeader, Frames, Headers, LogInv, PaceInv, TimeInv, WireInv, EndInv, DrainInv, SentPackets,
         EnvStep, NewPacket, PendingInv, WindowInv, QueueInv, PopAck;
    SeqNoFits(run, s);
    PopKeepsCount(run, s);
  }

  lemma SeqNoFits(run: Run, s: State)
    requires Inv(run, s)
    ensures s.client.seqNo < TWO_64
  {
    hide EncodeHeader, DecodeHeader, Frames, Headers, LogInv, PaceInv, TimeInv, WireInv, PendingInv;
  }

  lemma PopKeepsCount(run: Run, s: State)
    ensures s.net.ackQueue != [] ==> forall pc ::
              PopAck(run, s, pc).client.seqNo == s.client.seqNo && PopAck(run, s, pc).client.pc == pc
  {
  }

  /** A packet whose slot has come is not held back: the next step of the client goes on to
      stamp it, and the one after stamps it. */
  lemma SlotsAreTaken(run: Run, acts: seq<Act>, n: nat)
    requires var s := Exec(run, acts);
             s.client.pc.Pace?
             && (run.Delay().Some? ==> s.net.now >= run.firstSlot + s.client.seqNo * run.Delay().value)
    ensures var s := Exec(run, acts + [Step(n)]);
            s.client.pc.Stamp? && s.net == Exec(run, acts).net && s.client.seqNo == Exec(run, acts).client.seqNo
  {
    hide Exec, EncodeHeader, DecodeHeader, Frames, Headers, LogInv, TimeInv, WireInv, EndInv, DrainInv, PendingInv;
    ExecInv(run, acts);
    ExecSnoc(run, acts, Step(n));
  }

  // ----- the clock is read when it should be

  /** What an act adds to the send times, the insert times or the receive times is the time of
      that act; a send time comes with the next packet, made out for that time; a receive
      time with the last byte of an acknowledgement. */
  lemma StampsAreHonest(run: Run, acts: seq<Act>, a: Act)
    ensures var s, s' := Exec(run, acts), Exec(run, acts + [a]);
            && (s'.hist.stamps == s.hist.stamps || s'.hist.stamps == s.hist.stamps + [s.net.now])
            && (s'.hist.inserts == s.hist.inserts || s'.hist.inserts == s.hist.inserts + [s.net.now])
            && (s'.net.recvs == s.net.recvs || s'.net.recvs == s.net.recvs + [s.net.now])
            && |s'.hist.stamps| == s'.client.seqNo == |s'.hist.sent|
            && (s'.net.recvs != s.net.recvs ==>
                  a.Env? && a.e.ReaderRead? && |s.net.ackBuf| < 40 <= |s.net.ackBuf| + |s.net.down|)
  {
    hide Exec, EncodeHeader, DecodeHeader, Frames, Headers, LogInv, PaceInv, WireInv, EndInv, DrainInv, PendingInv, TimeInv,
         ServerReads, ServerWrites, NewPacket, PopAck;
    ExecInv(run, acts);
    ExecInv(run, acts + [a]);
    ExecSnoc(run, acts, a);
    BufferIsPartial(Exec(run, acts));
    ServerKeepsRecvs(Exec(run, acts).net);
    PopKeepsRecvs(run, Exec(run, acts));
  }

  lemma BufferIsPartial(s: State)
    requires WireInv(s.net, s.hist.sent, Unwritten(s.client.pc))
    ensures |s.net.ackBuf| < 40
  {
  }

  lemma ServerKeepsRecvs(net: Net)
    ensures forall n :: ServerReads(net, n).recvs == net.recvs && ServerWrites(net, n).recvs == net.recvs
  {
    hide DecodeHeader;
  }

  lemma PopKeepsRecvs(run: Run, s: State)
    ensures s.net.ackQueue != [] ==> forall pc ::
              PopAck(run, s, pc).net.recvs == s.net.recvs && PopAck(run, s, pc).hist == s.hist
  {
  }

  /** The packets are made out as the protocol has it. */
  lemma PacketsInFigures(run: Run, acts: seq<Act>, i: nat)
    requires i < |Exec(run, acts).hist.sent|
    ensures var p, hist := Exec(run, acts).hist.sent[i], Exec(run, acts).hist;
            && |hist.stamps| == |hist.sent|
            && p.header.magic == 0x4950_4653 && p.header.version == 1 && p.header.flags == 0
            && p.header.sessionId == run.sessionId && p.header.streamId == run.streamId && p.header.seqNo == i + 1
            && p.header.sendNs == hist.stamps[i] % 0x1_0000_0000_0000_0000 && p.header.payloadLen == run.payload
            && |p.payload| == run.payload && forall k :: 0 <= k < |p.payload| ==> p.payload[k] == 0
  {
    hide Exec, EncodeHeader, DecodeHeader, Frames, Headers, LogInv, PaceInv, WireInv, EndInv, DrainInv, PendingInv, TimeInv;
    ExecInv(run, acts);
  }

  /** The log in figures: an event gives the time its packet was stamped, the time its
      acknowledgement was, and whether it was recorded after the warm-up. */
  lemma EventsInFigures(run: Run, acts: seq<Act>, i: nat)
    requires i < |Exec(run, acts).client.events|
    ensures var s := Exec(run, acts);
            var e := s.client.events[i];
            && 1 <= e.seqNo <= |s.hist.inserts| <= |s.hist.stamps|
            && e.streamId == run.streamId && e.bytes == run.payload
            && e.sendNs == s.hist.stamps[e.seqNo - 1]
            && (e.measured <==> s.hist.inserts[e.seqNo - 1] >= run.start + run.warmup)
            && (e.recvNs.Some? ==> e.seqNo == i + 1 <= |s.net.recvs| && e.recvNs.value == s.net.recvs[i])
  {
    hide Exec, EncodeHeader, DecodeHeader, Frames, Headers, PaceInv, WireInv, EndInv, DrainInv, PendingInv, TimeInv, CountInv;
    ExecInv(run, acts);
  }

  // ----- waits are short and end

  /** A wait for room lasts two milliseconds, one in the drain phase one. */
  lemma WaitsAreShort(run: Run, acts: seq<Act>, a: Act)
    ensures var s, s' := Exec(run, acts), Exec(run, acts + [a]);
            && (s'.client.pc.WindowWait? && !s.client.pc.WindowWait? ==> s'.client.pc.until == s.net.now + 2_000_000)
            && (s'.client.pc.DrainSleep? && !s.client.pc.DrainSleep? ==> s'.client.pc.until == s.net.now + 1_000_000)
  {
    hide Exec, EnvStep, NewPacket, PopAck;
    ExecSnoc(run, acts, a);
    PopKeepsCount(run, Exec(run, acts));
  }

  /** A wait for room ends with the first acknowledgement, which it reports, or when the
      reader has stopped, or when its time is up; then a new round begins. A sleep of the
      drain phase ends when its time is up. */
  lemma WaitsEnd(run: Run, acts: seq<Act>, n: nat)
    ensures var s, s' := Exec(run, acts), Exec(run, acts + [Step(n)]);
            && (s.client.pc.WindowWait? && (s.net.ackQueue != [] || !s.net.readerUp || s.net.now >= s.client.pc.until) ==>
                  s'.client.pc.Top? && Acked(s') == Acked(s) + if s.net.ackQueue != [] then 1 else 0)
            && (s.client.pc.DrainSleep? && s.net.now >= s.client.pc.until ==> s'.client.pc.Top?)
  {
    hide Exec, EnvStep, NewPacket;
    ExecSnoc(run, acts, Step(n));
  }

  /** The loop is left at once when the end has come and nothing is pending, or when the drain
      deadline has passed; else it goes on with a round. */
  lemma LeavesPromptly(run: Run, acts: seq<Act>, n: nat)
    ensures var s, s', end := Exec(run, acts), Exec(run, acts + [Step(n)]), run.start + run.warmup + run.duration;
            && (s.client.pc.Top? ==> (s'.client.pc.Flush? <==> s.net.now >= end && s.client.pending == map[]))
            && (s.client.pc.CheckDeadline? ==> (s'.client.pc.Flush? <==> s.net.now >= end + run.timeout))
            && (s.client.pc.CheckEnd? && s.net.now >= end ==> s'.client.pc.CheckDeadline?)
  {
    hide Exec, EnvStep, NewPacket;
    ExecSnoc(run, acts, Step(n));
  }

  lemma {:induction false} BurstTakesTime(net: Net, acts: seq<EnvAct>)
    ensures EnvRun(net, acts).now == net.now + Elapsed(acts)
  {
    hide EnvStep;
    if acts != [] {
      var init, e := acts[..|acts| - 1], acts[|acts| - 1];
      BurstTakesTime(net, init);
      TickTakesTime(EnvRun(net, init), e);
    }
  }

  lemma TickTakesTime(net: Net, e: EnvAct)
    ensures EnvStep(net, e).now == net.now + if e.Tick? then e.dt else 0
  {
    hide DecodeHeader;
  }

  /** How long a client that follows a schedule sleeps: until its slot, or until its wait is
      over, unless there is an acknowledgement or no reader to wait for; nowhere else. */
  lemma SleepsInFigures(run: Run, schedule: Schedule, picks: seq<nat>, pick: nat)
    ensures var p, p' := Play(run, schedule, picks), Play(run, schedule, picks + [pick]);
            var pc, burst := p.s.client.pc, schedule(p.bursts);
            var after, ready, now := EnvRun(p.s.net, burst.acts), p.s.net.now + Elapsed(burst.acts), p'.s.net.now;
            match pc
            case Pace =>
              if run.Delay().None? then now == ready
              else
                var slot := run.firstSlot + p.s.client.seqNo * run.Delay().value;
                now == if ready < slot then slot else ready
            case DrainSleep(until) => now == if ready < until then until else ready
            case WindowWait(until) =>
              now == if after.ackQueue == [] && after.readerUp && ready < until then until else ready
            case _ => now == ready || now == p.s.net.now
  {
    hide Play, EnvRun, Elapsed, PopAck, NewPacket, Inv;
    var p := Play(run, schedule, picks);
    PlaySnoc(run, schedule, picks, pick);
    BurstTakesTime(p.s.net, schedule(p.bursts).acts);
    SlotIsNext(run, schedule, picks);
    StepKeepsClock(run, p.s, Step(pick));
    if Interruptible(p.s.client.pc) {
      var burst := schedule(p.bursts);
      var s := Awake(run, AfterBurst(p.s, burst.acts));
      StepKeepsClock(run, s, ActAfter(burst, s.client.pc, pick));
    }
    hide Next;
  }

  lemma StepKeepsClock(run: Run, s: State, a: Act)
    requires !a.Env?
    ensures Next(run, s, a).net.now == s.net.now
  {
    hide NewPacket;
  }

  lemma SlotIsNext(run: Run, schedule: Schedule, picks: seq<nat>)
    ensures var s := Play(run, schedule, picks).s;
            s.client.pc.Pace? && run.Delay().Some? ==>
              s.client.nextSend == run.firstSlot + s.client.seqNo * run.Delay().value
  {
    hide Play, EncodeHeader, DecodeHeader, Frames, Headers, LogInv, TimeInv, WireInv, EndInv, DrainInv, PendingInv;
    PlayInv(run, schedule, picks);
  }

  // ----- the reader and the server do their work

  /** When a whole acknowledgement is there, a reader that is up and reads it stamps it, and
      queues it. */
  lemma ReaderStamps(run: Run, acts: seq<Act>, n: nat)
    requires var net := Exec(run, acts).net;
             net.readerUp && |net.ackBuf| + |net.down| >= 40 && n >= 40
    ensures var s, s' := Exec(run, acts), Exec(run, acts + [Env(ReaderRead(n))]);
            && s'.net.recvs == s.net.recvs + [s.net.now]
            && s'.net.ackQueue == s.net.ackQueue + [Ack(|s.net.recvs| + 1, s.net.now)]
  {
    hide Exec, EncodeHeader, DecodeHeader, Frames, Headers, LogInv, PaceInv, WireInv, EndInv, DrainInv, PendingInv, TimeInv,
         ReaderReads;
    ExecInv(run, acts);
    ExecSnoc(run, acts, Env(ReaderRead(n)));
    var s := Exec(run, acts);
    TcpPreservation.SentAreWellFormed(run, s.hist);
    TcpPreservation.ReaderReadWire(s.net, n, s.hist.sent, Unwritten(s.client.pc));
    WholeAckIsTaken(s.net, n, s.hist.sent, Unwritten(s.client.pc));
  }

  lemma WholeAckIsTaken(net: Net, n: nat, sent: seq<Packet>, unwritten: Bytes)
    requires AllWellFormed(sent) && WireInv(net, sent, unwritten)
    requires |net.ackBuf| + |net.down| >= 40 && n >= 40
    ensures |ReaderReads(net, n).recvs| == |net.recvs| + 1
  {
    hide EncodeHeader, DecodeHeader, Frames, Headers;
    var k := Portion(n, DATA_HEADER_SIZE - |net.ackBuf|, |net.down|);
    var buf, down' := net.ackBuf + net.down[..k], net.down[k..];
    var echo := EchoRest(net.phase);
    TcpPreservation.Shift(net.ackBuf, net.down, echo, k);
    TcpPreservation.AckComplete(buf, down' + echo, sent, |net.recvs|, net);
  }

  /** A server that is up and has bytes to read or to write makes progress with every byte it
      is given the chance to. */
  lemma ServerProgresses(net: Net, n: nat)
    requires net.serverUp && n > 0
    ensures !net.phase.Echoing? && net.up != [] && ServerRefinement.PhaseOk(net.phase) ==>
              |EnvStep(net, ServerRead(n)).up| < |net.up|
    ensures net.phase.Echoing? ==>
              var rest := net.phase.rest;
              var k := if n < |rest| then n else |rest|;
              EnvStep(net, ServerWrite(n)).down == net.down + rest[..k]
  {
    hide DecodeHeader;
  }
}
