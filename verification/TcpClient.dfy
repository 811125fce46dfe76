/**
 The send loop of one TCP stream in its own form. At every point where the environment can
 interfere it takes the schedule's next burst of steps, also while the loop sleeps, and
 each statement is shown to be the step that `TcpPlay` makes from the same program point.
 So the loop does exactly what its schedule says, and whatever holds of every reachable
 state of the session holds of it.
 */
module TcpClient {
  import opened Base
  import opened Wire
  import opened Framing
  import opened Stream
  import opened TcpSession
  import opened TcpInvariant
  import opened TcpClientSteps
  import opened TcpTheorems
  import opened TcpPlay

  lemma ReachableInv(run: Run, s: State)
    requires Reachable(run, s)
    ensures Inv(run, s)
  {
    var acts :| s == Exec(run, acts);
    ExecInv(run, acts);
  }

  class TcpStream {
    const run: Run
    const schedule: Schedule
    var bursts: nat
    var seqNo: nat
    var nextSend: nat
    var pending: map<nat, Flight>
    var events: seq<PacketEvent>
    var net: Net
    ghost var s: State
    ghost var picks: seq<nat>

    /** The fields agree with the ghost state at program point `pc`. */
    ghost predicate Agrees(pc: Pc)
      reads this
    {
      s.net == net && s.client == Client(pc, seqNo, nextSend, pending, events)
    }

    /** The loop stands at program point `pc` of the played schedule. */
    ghost predicate At(pc: Pc)
      reads this
    {
      Agrees(pc) && Play(run, schedule, picks) == Progress(s, bursts)
    }

    /** A burst has happened since then, and nothing else. */
    ghost predicate Interrupted()
      reads this`s, this`bursts, this`picks
    {
      var p := Play(run, schedule, picks);
      && Interruptible(p.s.client.pc) && bursts == p.bursts + 1
      && s == AfterBurst(p.s, schedule(p.bursts).acts)
    }

    ghost predicate Mid(pc: Pc)
      reads this
    {
      Agrees(pc) && Interrupted()
    }

    constructor (run: Run, schedule: Schedule)
      ensures At(Top) && this.run == run && this.schedule == schedule
      ensures net.now == run.firstSlot && seqNo == 0 && pending == map[] && events == []
    {
      this.run, this.schedule := run, schedule;
      bursts, seqNo, nextSend, pending, events := 0, 0, run.firstSlot, map[], [];
      net := Init(run).net;
      s := Init(run);
      picks := [];
    }

    /** Every point of the loop is a reachable state of the session. */
    lemma HoldsInv(pc: Pc)
      requires At(pc) || Mid(pc)
      ensures Inv(run, s)
    {
      hide Reachable, Inv, Play, AfterBurst;
      PlayReachable(run, schedule, picks);
      if Mid(pc) {
        var p := Play(run, schedule, picks);
        BurstReachable(run, p.s, schedule(p.bursts).acts);
      }
      ReachableInv(run, s);
    }

    /** A step at which nothing interferes. */
    ghost method Advance(pick: nat)
      requires Play(run, schedule, picks) == Progress(s, bursts) && !Interruptible(s.client.pc)
      modifies this`s, this`picks
      ensures s == Next(run, old(s), Step(pick))
      ensures Play(run, schedule, picks) == Progress(s, bursts)
    {
      hide Next, Play;
      PlaySnoc(run, schedule, picks, pick);
      picks := picks + [pick];
      s := Next(run, s, Step(pick));
    }

    /** The sleep, if any, and the step after a burst. */
    ghost method Proceed(pick: nat)
      requires Interrupted()
      modifies this`s, this`picks
      ensures s == Next(run, Awake(run, old(s)), ActAfter(schedule(bursts - 1), old(s).client.pc, pick))
      ensures Play(run, schedule, picks) == Progress(s, bursts)
    {
      hide Next, Play, Awake, ActAfter;
      var p := Play(run, schedule, picks);
      PlaySnoc(run, schedule, picks, pick);
      assert Awake(run, s).client == s.client by { AwakeKeepsClient(run, s); }
      picks := picks + [pick];
      s := Next(run, Awake(run, s), ActAfter(schedule(p.bursts), s.client.pc, pick));
    }

    /** The environment takes the schedule's next burst of steps. */
    method Interfere(pc: Pc)
      requires At(pc) && Interruptible(pc)
      modifies this`s, this`net, this`bursts
      ensures Mid(pc)
      ensures net.now == old(net.now) + Elapsed(schedule(old(bursts)).acts)
    {
      hide EnvStep, Play;
      var acts := schedule(bursts).acts;
      for i := 0 to |acts|
        invariant net == EnvRun(old(net), acts[..i]) && s == old(s) && bursts == old(bursts)
        invariant net.now == old(net.now) + Elapsed(acts[..i])
      {
        assert acts[..i + 1][..i] == acts[..i];
        EnvClock(net, acts[i]);
        net := EnvStep(net, acts[i]);
      }
      assert acts[..|acts|] == acts;
      s := AfterBurst(s, acts);
      bursts := bursts + 1;
    }

    /** Sleeps until the given time. */
    method SleepUntil(until: nat)
      modifies this`net
      ensures net == old(net).(now := Max(old(net.now), until))
    {
      if net.now < until {
        net := net.(now := until);
      }
    }

    /** Reports the oldest queued acknowledgement; it is always for a pending packet. */
    method TakeAck(pc: Pc, pc': Pc)
      requires Mid(pc) && net.ackQueue != []
      requires (pc.TryRecv? && pc'.TryRecv?) || (pc.WindowWait? && pc'.Top?)
      modifies this`s, this`net, this`pending, this`events, this`picks
      ensures At(pc') && net == old(net).(ackQueue := old(net.ackQueue)[1..])
      ensures pending.Keys < old(pending.Keys)
    {
      hide Inv, Play, Interrupted;
      HoldsInv(pc);
      AckHitsPending(run, s);
      var ack := net.ackQueue[0];
      net := net.(ackQueue := net.ackQueue[1..]);
      if ack.seqNo in pending {
        events := events + [AckedEvent(run, ack, pending[ack.seqNo])];
        pending := pending - {ack.seqNo};
      }
      Proceed(0);
    }

    /** Takes acknowledgements until the queue is found empty. */
    method TakeAllAcks()
      requires At(TryRecv)
      modifies this`s, this`net, this`pending, this`events, this`bursts, this`picks
      ensures At(CheckEnd) && net.now >= old(net.now) + Elapsed(schedule(old(bursts)).acts)
    {
      hide Play, AfterBurst;
      Interfere(TryRecv);
      while net.ackQueue != []
        invariant Mid(TryRecv) && net.now >= old(net.now) + Elapsed(schedule(old(bursts)).acts)
        decreases pending.Keys
      {
        TakeAck(TryRecv, TryRecv);
        Interfere(TryRecv);
      }
      Proceed(0);
    }

    /** Waits up to two milliseconds for room in the window. */
    method WaitForRoom()
      requires At(CheckEnd) && net.now < run.End() && |pending| >= run.MaxInflight()
      modifies this`s, this`net, this`pending, this`events, this`bursts, this`picks
      ensures At(Top) && net.now >= old(net.now)
    {
      hide Play, AfterBurst;
      var until := net.now + 2 * MILLISECOND;
      Advance(0);
      Interfere(WindowWait(until));
      if net.ackQueue != [] {
        TakeAck(WindowWait(until), Top);
      } else {
        if net.readerUp {
          SleepUntil(until);
        }
        Proceed(0);
      }
    }

    /** Waits for the next send slot and moves the schedule on. */
    method AwaitSlot()
      requires At(CheckEnd) && net.now < run.End() && |pending| < run.MaxInflight()
      modifies this`s, this`net, this`bursts, this`nextSend, this`picks
      ensures At(Stamp) && net.now >= old(net.now)
    {
      hide Play, AfterBurst;
      Advance(0);
      Interfere(Pace);
      if run.Delay().Some? {
        SleepUntil(nextSend);
        nextSend := nextSend + run.Delay().value;
      }
      Proceed(0);
    }

    /** Notes a written packet as pending. */
    method Record(sendNs: nat)
      requires At(Insert(sendNs))
      modifies this`s, this`net, this`bursts, this`pending, this`picks
      ensures At(Top) && net.now >= old(net.now)
    {
      hide Play, AfterBurst;
      Interfere(Insert(sendNs));
      var measured := net.now >= run.WarmupUntil();
      pending := pending[seqNo := Flight(sendNs, measured)];
      Proceed(0);
    }

    /** Stamps the next packet, unless its number would overflow. */
    method StampPacket() returns (ok: bool, sendNs: nat)
      requires At(Stamp)
      modifies this`s, this`net, this`bursts, this`seqNo, this`picks
      ensures net.now >= old(net.now)
      ensures ok ==> seqNo < TWO_64 && At(Writing(sendNs, Frame(NewPacket(run, seqNo, sendNs))))
      ensures !ok ==> s.client.pc.Failed? && At(s.client.pc)
    {
      hide Play, AfterBurst, Frame;
      Interfere(Stamp);
      ok, sendNs := seqNo + 1 < TWO_64, net.now;
      if ok {
        seqNo := seqNo + 1;
      }
      Proceed(0);
    }

    /** Paces, stamps, writes and records one packet. */
    method SendPacket() returns (ok: bool)
      requires At(CheckEnd) && net.now < run.End() && |pending| < run.MaxInflight()
      modifies this
      ensures net.now >= old(net.now)
      ensures ok ==> At(Top)
      ensures !ok ==> s.client.pc.Failed? && At(s.client.pc)
    {
      hide Play, NewPacket;
      var sendNs;
      AwaitSlot();
      ok, sendNs := StampPacket();
      if ok {
        ok := WriteAll(sendNs, Frame(NewPacket(run, seqNo, sendNs)));
        if ok {
          Record(sendNs);
        }
      }
    }

    /** Writes the portion of the frame that the connection accepts. */
    method WriteSome(sendNs: nat, rest: Bytes) returns (ok: bool, left: Bytes)
      requires At(Writing(sendNs, rest)) && rest != []
      modifies this`s, this`net, this`bursts, this`picks
      ensures net.now >= old(net.now)
      ensures ok ==> |left| < |rest| && At(if left == [] then Insert(sendNs) else Writing(sendNs, left))
      ensures !ok ==> s.client.pc.Failed? && At(s.client.pc)
    {
      hide Play, AfterBurst;
      var burst := schedule(bursts);
      Interfere(Writing(sendNs, rest));
      ok, left := !burst.writeFails, rest;
      if ok {
        var k := Max(1, Min(burst.accepted, |rest|));
        net := net.(up := net.up + rest[..k]);
        left := rest[k..];
      }
      Proceed(0);
    }

    /** Writes the frame in whatever portions the connection accepts. */
    method WriteAll(sendNs: nat, frame: Bytes) returns (ok: bool)
      requires At(Writing(sendNs, frame)) && frame != []
      modifies this`s, this`net, this`bursts, this`picks
      ensures net.now >= old(net.now)
      ensures ok ==> At(Insert(sendNs))
      ensures !ok ==> s.client.pc.Failed? && At(s.client.pc)
    {
      hide Play;
      var rest := frame;
      while rest != []
        invariant At(if rest == [] then Insert(sendNs) else Writing(sendNs, rest))
        invariant net.now >= old(net.now)
        decreases |rest|
      {
        ok, rest := WriteSome(sendNs, rest);
        if !ok {
          return;
        }
      }
      return true;
    }

    /** Reports whatever is still pending as lost, in no particular order. */
    method FlushPending()
      requires At(Flush)
      modifies this`s, this`pending, this`events, this`picks
      ensures At(Done)
    {
      hide Play;
      while pending != map[]
        invariant At(Flush)
        decreases pending.Keys
      {
        var k :| k in pending;
        events := events + [LostEvent(run, k, pending[k])];
        pending := pending - {k};
        Advance(k);
      }
      Advance(0);
    }

    /** After the end, looks whether the drain deadline has passed. */
    method PastDeadline() returns (expired: bool)
      requires At(CheckEnd) && net.now >= run.End()
      modifies this`s, this`net, this`bursts, this`picks
      ensures net.now >= old(net.now)
      ensures if expired then At(Flush)
              else At(DrainSleep(net.now + MILLISECOND)) && net.now < run.DrainDeadline()
    {
      hide Play, AfterBurst;
      Advance(0);
      Interfere(CheckDeadline);
      expired := net.now >= run.DrainDeadline();
      Proceed(0);
    }

    /** After the end, sleeps a millisecond unless the drain deadline has passed. */
    method DrainRound() returns (expired: bool)
      requires At(CheckEnd) && net.now >= run.End()
      modifies this`s, this`net, this`bursts, this`picks
      ensures net.now >= old(net.now)
      ensures expired ==> At(Flush)
      ensures !expired ==> At(Top) && old(net.now) < run.DrainDeadline()
    {
      hide Play, AfterBurst;
      expired := PastDeadline();
      if !expired {
        var until := net.now + MILLISECOND;
        Interfere(DrainSleep(until));
        SleepUntil(until);
        Proceed(0);
      }
    }

    /** The whole loop. It ends, because time passes: every round either sends, waits or
        sleeps before the drain deadline, or is the last. */
    method RunStreamTcp() returns (ok: bool)
      requires At(Top) && ClockProgresses(schedule)
      modifies this
      ensures ok ==> At(Done)
      ensures !ok ==> s.client.pc.Failed? && At(s.client.pc)
    {
      hide Play, Frame;
      while net.now < run.End() || pending != map[]
        invariant At(Top)
        decreases Max(0, run.DrainDeadline() - net.now)
      {
        Advance(0);
        TakeAllAcks();
        if net.now >= run.End() {
          var expired := DrainRound();
          if expired {
            break;
          }
        } else if |pending| >= run.MaxInflight() {
          WaitForRoom();
        } else {
          ok := SendPacket();
          if !ok {
            return false;
          }
        }
      }
      if s.client.pc.Top? {
        Advance(0);
      }
      FlushPending();
      return true;
    }
  }

  lemma AwakeKeepsClient(run: Run, s: State)
    ensures Awake(run, s).client == s.client
  {
  }

  lemma EnvClock(net: Net, e: EnvAct)
    ensures EnvStep(net, e).now == net.now + (if e.Tick? then e.dt else 0)
  {
    hide DecodeHeader;
  }

  /** One TCP stream, start to finish: it terminates with the outcome its schedule dictates,
      and unless a write failed its log reports every packet exactly once, in the closed form
      of a finished log. */
  method RunStream(run: Run, schedule: Schedule) returns (ok: bool, log: seq<PacketEvent>)
    requires ClockProgresses(schedule)
    ensures IsOutcome(run, schedule, ok, log)
    ensures Causal(log)
    ensures ok ==> exists acked, warm :: FinishedLog(log, run.streamId, run.payload, |log|, acked, warm)
    ensures ok && run.Delay().Some? ==>
              var d := run.Delay().value;
              |log| <= (Max(0, run.End() - run.firstSlot) + d - 1) / d + 1
  {
    var stream := new TcpStream(run, schedule);
    ok := stream.RunStreamTcp();
    log := stream.events;
    assert Ends(run, Play(run, schedule, stream.picks).s, ok, log);
    PlayReachable(run, schedule, stream.picks);
    ghost var acts :| stream.s == Exec(run, acts);
    LogIsCausal(run, acts);
    if ok {
      FinishedRun(run, acts);
      SendsAndDrainsAreBounded(run, acts);
    }
  }
}
