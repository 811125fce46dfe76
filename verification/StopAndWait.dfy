/**
 What the UDP and QUIC clients share. Both send a packet, wait for an answer up to a
 timeout, report, and go on. What the network does in each round is an arbitrary choice.
 */
module StopAndWait {
  import opened Base
  import opened Wire
  import opened Stream

  /** How long the parts of a round take. */
  datatype Timing = Timing(beforeSlot: nat, beforeStamp: nat, sending: nat, answering: nat)
  {
    /** The wait for an answer, which ends at the timeout. */
    function Wait(timeout: nat): nat {
      Min(answering, timeout)
    }

    function Sum(timeout: nat): nat {
      beforeSlot + beforeStamp + sending + Wait(timeout)
    }
  }

  /** What a client makes of what it received in a round. */
  datatype Answer = NoAnswer | Answered(seqNo: nat) | Undecodable

  /** Reading 40 bytes as an acknowledgement; what is no data header ends the stream. */
  function ReadHeader(bs: Bytes): Answer {
    match DecodeHeader(bs)
    case Err(_) => Undecodable
    case Ok(h) => Answered(h.seqNo)
  }

  // ----- when things happen

  type Timings = nat -> Timing

  /** When a client that is ready at `t` may send its packet number `n`, counted from zero. */
  function AtSlot(run: Run, t: nat, n: nat): nat {
    match run.Delay()
    case None => t
    case Some(d) => Max(t, run.firstSlot + n * d)
  }

  /** When round `n` begins, and so when the one before it is over. */
  function StartOf(run: Run, timings: Timings, n: nat): nat
    decreases n, 0
  {
    if n == 0 then run.firstSlot
    else StampOf(run, timings, n - 1) + timings(n - 1).sending + timings(n - 1).Wait(run.timeout)
  }

  /** When the packet of round `n` is stamped. */
  function StampOf(run: Run, timings: Timings, n: nat): nat
    decreases n, 1
  {
    AtSlot(run, StartOf(run, timings, n) + timings(n).beforeSlot, n) + timings(n).beforeStamp
  }

  /** The event of one round: measured if the warm-up was over once the packet was written. */
  function RoundEvent(run: Run, seqNo: nat, stamp: nat, written: nat, received: Option<nat>): PacketEvent {
    PacketEvent(run.streamId, seqNo, run.payload, stamp, received, written >= run.WarmupUntil())
  }

  /** Round `i` began before the end, sent its packet and reported it, with a receive time,
      if it has one, at the end of the round. */
  ghost predicate RoundTimed(run: Run, timings: Timings, e: PacketEvent, i: nat) {
    var stamp := StampOf(run, timings, i);
    && StartOf(run, timings, i) < run.End()
    && e == RoundEvent(run, i + 1, stamp, stamp + timings(i).sending, e.recvNs)
    && (e.recvNs.Some? ==> e.recvNs.value == StartOf(run, timings, i + 1))
  }

  /** The loop made exactly these rounds, at the times that pacing and timings give. */
  ghost predicate Timed(run: Run, timings: Timings, log: seq<PacketEvent>, finished: nat) {
    && finished == StartOf(run, timings, |log|)
    && forall i :: 0 <= i < |log| ==> RoundTimed(run, timings, log[i], i)
  }

  lemma TimedSnoc(run: Run, timings: Timings, log: seq<PacketEvent>, now: nat, e: PacketEvent)
    requires Timed(run, timings, log, now) && RoundTimed(run, timings, e, |log|)
    ensures Timed(run, timings, log + [e], StartOf(run, timings, |log| + 1))
  {
    hide RoundTimed, StartOf;
  }

  /** The times of the round `i` in figures: it begins when the one before is over, its packet
      waits for its slot, if there are slots, and it is over after the write and the wait for
      an answer, which ends at the timeout. */
  lemma RoundInFigures(run: Run, timings: Timings, log: seq<PacketEvent>, finished: nat, i: nat)
    requires Timed(run, timings, log, finished) && i < |log|
    ensures var e, timing := log[i], timings(i);
            var begin := if i == 0 then run.firstSlot
                         else log[i - 1].sendNs + timings(i - 1).sending
                              + (if timings(i - 1).answering < run.timeout then timings(i - 1).answering else run.timeout);
            var ready := begin + timing.beforeSlot;
            var over := e.sendNs + timing.sending + (if timing.answering < run.timeout then timing.answering else run.timeout);
            && begin < run.start + run.warmup + run.duration
            && (run.Delay().None? ==> e.sendNs == ready + timing.beforeStamp)
            && (run.Delay().Some? ==>
                  var slot := run.firstSlot + i * run.Delay().value;
                  e.sendNs == (if ready < slot then slot else ready) + timing.beforeStamp)
            && e.streamId == run.streamId && e.seqNo == i + 1 && e.bytes == run.payload
            && (e.measured <==> e.sendNs + timing.sending >= run.start + run.warmup)
            && (e.recvNs.Some? ==> e.recvNs.value == over)
            && (i == |log| - 1 ==> finished == over)
  {
    assert RoundTimed(run, timings, log[i], i);
    if i > 0 {
      assert RoundTimed(run, timings, log[i - 1], i - 1);
    }
  }

  /** The loop is over at most the time of a write and a timeout after the last packet was
      stamped. */
  lemma EndsInTime(run: Run, timings: Timings, log: seq<PacketEvent>, finished: nat)
    requires Timed(run, timings, log, finished)
    ensures log == [] ==> finished == run.firstSlot
    ensures log != [] ==> finished <= log[|log| - 1].sendNs + timings(|log| - 1).sending + run.timeout
  {
    if log != [] {
      assert RoundTimed(run, timings, log[|log| - 1], |log| - 1);
    }
  }

  /** A packet ready after `now` is stamped at `stamp`, and `next` is the slot after its own. */
  predicate TakesSlot(run: Run, timing: Timing, now: nat, nextSend: nat, stamp: nat, next: nat) {
    var ready := now + timing.beforeSlot;
    match run.Delay()
    case None => next == nextSend && stamp == ready + timing.beforeStamp
    case Some(d) => next == nextSend + d && stamp == Max(ready, nextSend) + timing.beforeStamp
  }

  /** Sleeps until the next send slot, if pacing, and moves the schedule on. */
  method AwaitSlot(run: Run, now: nat, nextSend: nat, timing: Timing) returns (stamp: nat, next: nat)
    ensures TakesSlot(run, timing, now, nextSend, stamp, next)
  {
    stamp, next := now + timing.beforeSlot, nextSend;
    if run.Delay().Some? {
      if stamp < nextSend {
        stamp := nextSend;
      }
      next := nextSend + run.Delay().value;
    }
    stamp := stamp + timing.beforeStamp;
  }

  // ----- what every round keeps

  /** The state of the schedule after `|stamps|` sends. */
  ghost predicate Scheduled(run: Run, stamps: seq<nat>, nextSend: nat, now: nat) {
    && OnSchedule(run, stamps)
    && (forall i :: 0 <= i < |stamps| ==> stamps[i] <= now)
    && (run.Delay().Some? ==> nextSend == run.firstSlot + |stamps| * run.Delay().value)
  }

  lemma ScheduleGrows(run: Run, stamps: seq<nat>, nextSend: nat, now: nat, stamp: nat, next: nat, later: nat)
    requires Scheduled(run, stamps, nextSend, now) && now < run.End() && now <= stamp <= later
    requires match run.Delay()
             case None => next == nextSend
             case Some(d) => stamp >= nextSend && next == nextSend + d
    ensures Scheduled(run, stamps + [stamp], next, later)
  {
    if run.Delay().Some? {
      var d := run.Delay().value;
      assert (|stamps| + 1) * d == |stamps| * d + d;
    }
  }

  /** One more round, measured unless no round so far was, extends the log. */
  lemma SequentialSnoc(run: Run, log: seq<PacketEvent>, warm: nat, sendNs: nat, recvNs: Option<nat>, measured: bool)
    requires SequentialLog(log, run.streamId, run.payload, warm) && warm <= |log|
    requires (warm < |log| ==> measured) && (recvNs.Some? ==> recvNs.value >= sendNs)
    ensures SequentialLog(log + [PacketEvent(run.streamId, |log| + 1, run.payload, sendNs, recvNs, measured)],
                          run.streamId, run.payload, if measured then warm else |log| + 1)
  {
  }

  lemma WarmedUpSnoc(run: Run, log: seq<PacketEvent>, sendNs: nat, recvNs: Option<nat>, measured: bool, written: nat)
    requires WarmedUp(log, run.WarmupUntil())
    requires sendNs <= written && measured == (written >= run.WarmupUntil())
    requires recvNs.Some? ==> recvNs.value >= written
    requires log != [] && log[|log| - 1].measured ==> sendNs >= run.WarmupUntil()
    ensures WarmedUp(log + [PacketEvent(run.streamId, |log| + 1, run.payload, sendNs, recvNs, measured)],
                     run.WarmupUntil())
  {
  }

  /** What holds after every round: the log so far and the schedule are in order. */
  ghost predicate InRounds(run: Run, timings: Timings, log: seq<PacketEvent>, warm: nat, nextSend: nat, now: nat) {
    && SequentialLog(log, run.streamId, run.payload, warm) && WarmedUp(log, run.WarmupUntil())
    && warm <= |log| && (warm < |log| ==> now >= run.WarmupUntil())
    && Scheduled(run, SendTimes(log), nextSend, now)
    && Timed(run, timings, log, now)
  }

  lemma NoRounds(run: Run, timings: Timings)
    ensures InRounds(run, timings, [], 0, run.firstSlot, run.firstSlot)
  {
  }

  lemma StampIsDue(run: Run, timings: Timings, stamps: seq<nat>, nextSend: nat, now: nat, stamp: nat, next: nat)
    requires Scheduled(run, stamps, nextSend, now) && now == StartOf(run, timings, |stamps|)
    requires TakesSlot(run, timings(|stamps|), now, nextSend, stamp, next)
    ensures stamp == StampOf(run, timings, |stamps|) && now <= stamp
    ensures match run.Delay()
            case None => next == nextSend
            case Some(d) => stamp >= nextSend && next == nextSend + d
  {
    hide StartOf;
  }

  /** One more round, stamped when `AwaitSlot` says, keeps everything. */
  lemma RoundJoins(run: Run, timings: Timings, log: seq<PacketEvent>, warm: nat, nextSend: nat, now: nat,
                   stamp: nat, next: nat, received: Option<nat>)
    requires InRounds(run, timings, log, warm, nextSend, now) && now < run.End()
    requires TakesSlot(run, timings(|log|), now, nextSend, stamp, next)
    requires received.Some? ==>
               received.value == stamp + timings(|log|).sending + timings(|log|).Wait(run.timeout)
    ensures var written := stamp + timings(|log|).sending;
            var e := RoundEvent(run, |log| + 1, stamp, written, received);
            && InRounds(run, timings, log + [e], if e.measured then warm else |log| + 1, next,
                        written + timings(|log|).Wait(run.timeout))
            && SendTimes(log + [e]) == SendTimes(log) + [stamp]
            && stamp == StampOf(run, timings, |log|)
  {
    hide SequentialLog, WarmedUp, Scheduled, Timed, StampOf;
    var n, written := |log|, stamp + timings(|log|).sending;
    var later := written + timings(n).Wait(run.timeout);
    var e := RoundEvent(run, n + 1, stamp, written, received);
    TimedNow(run, timings, log, now);
    StampIsDue(run, timings, SendTimes(log), nextSend, now, stamp, next);
    assert log != [] && log[n - 1].measured ==> warm < n by { LastMeasured(run, log, warm); }
    SequentialSnoc(run, log, warm, stamp, received, e.measured);
    WarmedUpSnoc(run, log, stamp, received, e.measured, written);
    ScheduleGrows(run, SendTimes(log), nextSend, now, stamp, next, later);
    assert SendTimes(log + [e]) == SendTimes(log) + [stamp];
    assert later == StartOf(run, timings, n + 1);
    TimedSnoc(run, timings, log, now, e);
  }

  /** The packet under way is stamped when it is due. */
  lemma StampNow(run: Run, timings: Timings, log: seq<PacketEvent>, warm: nat, nextSend: nat, now: nat,
                 stamp: nat, next: nat)
    requires InRounds(run, timings, log, warm, nextSend, now)
    requires TakesSlot(run, timings(|log|), now, nextSend, stamp, next)
    ensures stamp == StampOf(run, timings, |log|)
  {
    hide SequentialLog, WarmedUp, Scheduled, StampOf;
    StampIsDue(run, timings, SendTimes(log), nextSend, now, stamp, next);
  }

  lemma TimedNow(run: Run, timings: Timings, log: seq<PacketEvent>, now: nat)
    requires Timed(run, timings, log, now)
    ensures now == StartOf(run, timings, |log|)
  {
  }

  lemma LastMeasured(run: Run, log: seq<PacketEvent>, warm: nat)
    requires SequentialLog(log, run.streamId, run.payload, warm)
    ensures log != [] && log[|log| - 1].measured ==> warm < |log|
  {
  }

  /** What a stop-and-wait stream reports at its end, whether or not it failed, with the
      stamp of the packet under way. */
  lemma RoundsDone(run: Run, timings: Timings, log: seq<PacketEvent>, warm: nat, nextSend: nat, now: nat)
    requires InRounds(run, timings, log, warm, nextSend, now)
    ensures SequentialLog(log, run.streamId, run.payload, warm) && WarmedUp(log, run.WarmupUntil())
    ensures OnSchedule(run, SendTimes(log)) && warm <= |log| && Timed(run, timings, log, now)
  {
  }
}
