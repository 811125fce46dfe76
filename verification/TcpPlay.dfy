/**
 The send loop of one TCP stream, driven by a schedule: what the environment does at each
 point where it can interfere. Unlike a list of acts, a schedule leaves the client no
 choice but the order in which it gives up what is still pending.
 */
module TcpPlay {
  import opened Base
  import opened Stream
  import opened TcpSession
  import opened TcpInvariant
  import opened TcpClientSteps
  import opened TcpTheorems

  /** What happens at one interference point: environment steps, and how the write under
      way, if any, fares. */
  datatype Burst = Burst(acts: seq<EnvAct>, accepted: nat, writeFails: bool)

  type Schedule = nat -> Burst

  function Elapsed(acts: seq<EnvAct>): nat {
    if acts == [] then 0
    else Elapsed(acts[..|acts| - 1]) + (if acts[|acts| - 1].Tick? then acts[|acts| - 1].dt else 0)
  }

  /** Some time passes at every interference point. */
  ghost predicate ClockProgresses(schedule: Schedule) {
    forall i :: Elapsed(schedule(i).acts) >= 1
  }

  function EnvRun(net: Net, acts: seq<EnvAct>): Net {
    if acts == [] then net else EnvStep(EnvRun(net, acts[..|acts| - 1]), acts[|acts| - 1])
  }

  /** The points at which the client waits, reads the clock or the queue, or writes, and so
      the environment can interfere. */
  predicate Interruptible(pc: Pc) {
    || pc.TryRecv? || pc.CheckDeadline? || pc.DrainSleep? || pc.WindowWait? || pc.Pace? || pc.Stamp?
    || pc.Writing? || pc.Insert?
  }

  function AfterBurst(s: State, acts: seq<EnvAct>): State {
    s.(net := EnvRun(s.net, acts))
  }

  /** The time until which the client sleeps, zero if it does not. */
  function WakeTime(run: Run, s: State): nat {
    match s.client.pc
    case Pace => if run.Delay().Some? then s.client.nextSend else 0
    case DrainSleep(until) => until
    case WindowWait(until) => if s.net.ackQueue == [] && s.net.readerUp then until else 0
    case _ => 0
  }

  function Awake(run: Run, s: State): State {
    s.(net := s.net.(now := Max(s.net.now, WakeTime(run, s))))
  }

  /** The client's act after a burst: a write fails or accepts at least one byte. */
  function ActAfter(burst: Burst, pc: Pc, pick: nat): Act {
    match pc
    case Writing(_, rest) => if burst.writeFails then WriteError else Step(Max(1, Min(burst.accepted, |rest|)))
    case _ => Step(pick)
  }

  /** A state of the loop and how many bursts of the schedule it has seen. */
  datatype Progress = Progress(s: State, bursts: nat)

  /** One step of the loop, after a burst and a sleep where these are due. `pick` is the
      pending packet to give up, if that is the step. */
  function Onward(run: Run, schedule: Schedule, p: Progress, pick: nat): Progress {
    if Interruptible(p.s.client.pc) then
      var burst := schedule(p.bursts);
      var s := Awake(run, AfterBurst(p.s, burst.acts));
      Progress(Next(run, s, ActAfter(burst, s.client.pc, pick)), p.bursts + 1)
    else
      Progress(Next(run, p.s, Step(pick)), p.bursts)
  }

  function Play(run: Run, schedule: Schedule, picks: seq<nat>): Progress {
    if picks == [] then Progress(Init(run), 0)
    else Onward(run, schedule, Play(run, schedule, picks[..|picks| - 1]), picks[|picks| - 1])
  }

  lemma PlaySnoc(run: Run, schedule: Schedule, picks: seq<nat>, pick: nat)
    ensures Play(run, schedule, picks + [pick]) == Onward(run, schedule, Play(run, schedule, picks), pick)
  {
    hide Onward;
    assert (picks + [pick])[..|picks|] == picks;
  }

  /** What a stream that follows the schedule can return: the log of the played loop when it
      is done, or when its write has failed. */
  ghost predicate IsOutcome(run: Run, schedule: Schedule, ok: bool, log: seq<PacketEvent>) {
    exists picks :: Ends(run, Play(run, schedule, picks).s, ok, log)
  }

  ghost predicate Ends(run: Run, s: State, ok: bool, log: seq<PacketEvent>) {
    log == s.client.events && if ok then s.client.pc.Done? else s.client.pc.Failed?
  }

  // ----- playing a schedule is one way to take the steps of the session

  lemma {:induction false} BurstReachable(run: Run, s: State, acts: seq<EnvAct>)
    requires Reachable(run, s)
    ensures Reachable(run, AfterBurst(s, acts))
  {
    hide Reachable, EnvStep;
    if acts == [] {
      assert AfterBurst(s, acts) == s;
    } else {
      var init := acts[..|acts| - 1];
      BurstReachable(run, s, init);
      ReachableNext(run, AfterBurst(s, init), Env(acts[|acts| - 1]));
    }
  }

  lemma AwakeReachable(run: Run, s: State)
    requires Reachable(run, s)
    ensures Reachable(run, Awake(run, s))
  {
    hide Reachable;
    var t := WakeTime(run, s);
    if s.net.now < t {
      ReachableNext(run, s, Env(Tick(t - s.net.now)));
    } else {
      assert Awake(run, s) == s;
    }
  }

  lemma OnwardReachable(run: Run, schedule: Schedule, p: Progress, pick: nat)
    requires Reachable(run, p.s)
    ensures Reachable(run, Onward(run, schedule, p, pick).s)
  {
    hide Reachable, Next, Awake, AfterBurst;
    if Interruptible(p.s.client.pc) {
      var burst := schedule(p.bursts);
      BurstReachable(run, p.s, burst.acts);
      AwakeReachable(run, AfterBurst(p.s, burst.acts));
      var s := Awake(run, AfterBurst(p.s, burst.acts));
      ReachableNext(run, s, ActAfter(burst, s.client.pc, pick));
    } else {
      ReachableNext(run, p.s, Step(pick));
    }
  }

  lemma {:induction false} PlayReachable(run: Run, schedule: Schedule, picks: seq<nat>)
    ensures Reachable(run, Play(run, schedule, picks).s)
  {
    hide Reachable, Onward;
    if picks == [] {
      assert Exec(run, []) == Init(run);
      StartReachable(run);
    } else {
      PlayReachable(run, schedule, picks[..|picks| - 1]);
      OnwardReachable(run, schedule, Play(run, schedule, picks[..|picks| - 1]), picks[|picks| - 1]);
    }
  }

  lemma StartReachable(run: Run)
    ensures Reachable(run, Init(run))
  {
    assert Exec(run, []) == Init(run);
  }

  lemma PlayInv(run: Run, schedule: Schedule, picks: seq<nat>)
    ensures Inv(run, Play(run, schedule, picks).s)
  {
    hide Inv, Play;
    PlayReachable(run, schedule, picks);
    var acts :| Play(run, schedule, picks).s == Exec(run, acts);
    ExecInv(run, acts);
  }

  // ----- a schedule determines the outcome

  /** The two loops are in step: at the same point, or both giving up what is pending. */
  predicate InStep(p: Progress, q: Progress) {
    || p == q
    || (&& (p.s.client.pc.Flush? || p.s.client.pc.Done?) && (q.s.client.pc.Flush? || q.s.client.pc.Done?)
        && p.s.net == q.s.net && p.s.hist == q.s.hist)
  }

  /** Only where it gives up what is pending does the client have a choice. */
  lemma NoChoice(run: Run, s: State, a: nat, b: nat)
    requires !s.client.pc.Flush? && !s.client.pc.Writing?
    ensures ClientStep(run, s, a) == ClientStep(run, s, b)
  {
    hide PopAck, NewPacket;
  }

  lemma NoChoiceOnward(run: Run, schedule: Schedule, p: Progress, a: nat, b: nat)
    requires !p.s.client.pc.Flush?
    ensures Onward(run, schedule, p, a) == Onward(run, schedule, p, b)
  {
    hide ClientStep, EnvRun, WakeTime;
    if Interruptible(p.s.client.pc) {
      var s := Awake(run, AfterBurst(p.s, schedule(p.bursts).acts));
      if !s.client.pc.Writing? {
        NoChoice(run, s, a, b);
      }
    } else {
      NoChoice(run, p.s, a, b);
    }
  }

  lemma FlushInStep(run: Run, schedule: Schedule, p: Progress, a: nat)
    requires p.s.client.pc.Flush? || p.s.client.pc.Done?
    ensures var p' := Onward(run, schedule, p, a);
            (p'.s.client.pc.Flush? || p'.s.client.pc.Done?) && p'.s.net == p.s.net && p'.s.hist == p.s.hist
  {
    hide EnvRun, WakeTime;
  }

  lemma OnwardInStep(run: Run, schedule: Schedule, p: Progress, q: Progress, a: nat, b: nat)
    requires InStep(p, q)
    ensures InStep(Onward(run, schedule, p, a), Onward(run, schedule, q, b))
  {
    hide Onward;
    if p.s.client.pc.Flush? || p.s.client.pc.Done? {
      FlushInStep(run, schedule, p, a);
      FlushInStep(run, schedule, q, b);
    } else {
      NoChoiceOnward(run, schedule, p, a, b);
    }
  }

  lemma {:induction false} PlaysInStep(run: Run, schedule: Schedule, a: seq<nat>, b: seq<nat>)
    requires |a| == |b|
    ensures InStep(Play(run, schedule, a), Play(run, schedule, b))
  {
    hide Onward, InStep;
    if a == [] {
      StartsInStep(Play(run, schedule, a));
    } else {
      var n := |a| - 1;
      PlaysInStep(run, schedule, a[..n], b[..n]);
      OnwardInStep(run, schedule, Play(run, schedule, a[..n]), Play(run, schedule, b[..n]), a[n], b[n]);
    }
  }

  lemma StartsInStep(p: Progress)
    ensures InStep(p, p)
  {
  }

  /** A loop that has ended stays as it is. */
  lemma EndIsFinal(run: Run, schedule: Schedule, p: Progress, pick: nat)
    requires p.s.client.pc.Done? || p.s.client.pc.Failed?
    ensures Onward(run, schedule, p, pick) == p
  {
  }

  lemma {:induction false} EndsLater(run: Run, schedule: Schedule, picks: seq<nat>, n: nat)
    returns (longer: seq<nat>)
    requires Play(run, schedule, picks).s.client.pc.Done? || Play(run, schedule, picks).s.client.pc.Failed?
    requires |picks| <= n
    ensures |longer| == n && Play(run, schedule, longer) == Play(run, schedule, picks)
    decreases n
  {
    hide Onward, Play;
    if |picks| == n {
      longer := picks;
    } else {
      longer := EndsLater(run, schedule, picks, n - 1);
      PlaySnoc(run, schedule, longer, 0);
      EndIsFinal(run, schedule, Play(run, schedule, longer), 0);
      longer := longer + [0];
    }
  }

  /** What is lost in one end of a history is lost in every other. */
  lemma SameLoss(run: Run, c: Client, c': Client, hist: History, recvs: seq<nat>, acked: int, i: nat)
    requires LogInv(run, c.events, hist, recvs, acked) && LogInv(run, c'.events, hist, recvs, acked)
    requires PendingInv(run, c', hist, acked) && c'.pending == map[] && acked <= i < |c.events|
    ensures c.events[i] in c'.events
  {
    hide LostEvent, AckedEvent, FlightOf;
    var e, tail := c.events[i], c'.events[acked..];
    assert Reported(tail, e.seqNo);
    var j :| 0 <= j < |tail| && tail[j].seqNo == e.seqNo;
    assert c'.events[acked + j] == e;
  }

  lemma SameAck(run: Run, events: seq<PacketEvent>, events': seq<PacketEvent>, hist: History, recvs: seq<nat>,
                acked: int, i: nat)
    requires LogInv(run, events, hist, recvs, acked) && LogInv(run, events', hist, recvs, acked) && i < acked
    ensures events[i] in events'
  {
    hide LostEvent, AckedEvent, FlightOf;
    assert events[i] == events'[i];
  }

  /** In two ends with the same history each event of one is an event of the other. */
  lemma SameEvents(run: Run, s: State, s': State, e: PacketEvent)
    requires Inv(run, s) && Inv(run, s') && s.client.pc.Done? && s'.client.pc.Done?
    requires s.net == s'.net && s.hist == s'.hist
    requires e in s.client.events
    ensures e in s'.client.events
  {
    hide WireInv, SentPackets, TimeInv, WindowInv, PaceInv, EndInv, DrainInv, QueueInv, LogInv, PendingInv, CountInv;
    var acked := Acked(s);
    PendingIsEmpty(run, s'.client, s'.hist, acked);
    var i :| 0 <= i < |s.client.events| && s.client.events[i] == e;
    if i < acked {
      SameAck(run, s.client.events, s'.client.events, s.hist, s.net.recvs, acked, i);
    } else {
      SameLoss(run, s.client, s'.client, s.hist, s.net.recvs, acked, i);
    }
  }

  /** Two ends with the same history agree on the acknowledged part, and in length. */
  lemma SameAcknowledged(run: Run, s: State, s': State)
    requires Inv(run, s) && Inv(run, s') && s.client.pc.Done? && s'.client.pc.Done?
    requires s.net == s'.net && s.hist == s'.hist
    ensures var log, log' := s.client.events, s'.client.events;
            && |log| == |log'|
            && forall i :: 0 <= i < |log| && log[i].recvNs.Some? ==> log'[i] == log[i]
  {
    hide WireInv, SentPackets, TimeInv, WindowInv, PaceInv, EndInv, DrainInv, QueueInv, PendingInv;
    PendingIsEmpty(run, s.client, s.hist, Acked(s));
    PendingIsEmpty(run, s'.client, s'.hist, Acked(s'));
    TailCovers(run, s.client, s.hist, Acked(s), s.net.recvs);
    TailCovers(run, s'.client, s'.hist, Acked(s'), s'.net.recvs);
  }

  /** A schedule leaves a stream one outcome, but for the order of the losses: it fails or
      not, and reports the same events, the acknowledged ones in the same places. */
  lemma OutcomeIsDetermined(run: Run, schedule: Schedule, ok: bool, log: seq<PacketEvent>, ok': bool, log': seq<PacketEvent>)
    requires IsOutcome(run, schedule, ok, log) && IsOutcome(run, schedule, ok', log')
    ensures ok == ok' && |log| == |log'|
    ensures !ok ==> log == log'
    ensures forall e :: e in log <==> e in log'
    ensures forall i :: 0 <= i < |log| && log[i].recvNs.Some? ==> log'[i] == log[i]
  {
    hide Play, Inv;
    var a :| Ends(run, Play(run, schedule, a).s, ok, log);
    var b :| Ends(run, Play(run, schedule, b).s, ok', log');
    var n := Max(|a|, |b|);
    var a' := EndsLater(run, schedule, a, n);
    var b' := EndsLater(run, schedule, b, n);
    PlaysInStep(run, schedule, a', b');
    if ok && ok' {
      PlayInv(run, schedule, a);
      PlayInv(run, schedule, b);
      var s, s' := Play(run, schedule, a).s, Play(run, schedule, b).s;
      SameAcknowledged(run, s, s');
      forall e ensures e in log <==> e in log' {
        if e in log {
          SameEvents(run, s, s', e);
        }
        if e in log' {
          SameEvents(run, s', s, e);
        }
      }
    }
  }
}
