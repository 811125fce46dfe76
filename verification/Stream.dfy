/** What one benchmark stream is asked to do, what it reports, and its pacing. */
module Stream {
  import opened Base
  import opened Wire
  import opened Framing

  datatype PacketEvent = PacketEvent(
    streamId: U32,
    seqNo: nat,
    bytes: nat,
    sendNs: nat,
    recvNs: Option<nat>,
    measured: bool)

  const MILLISECOND: nat := 1_000_000

  /** The pause between two sends, in nanoseconds: rounded down, at least one, and no more
      than 64 bits hold. */
  function PacingDelay(payload: nat, rateBps: Option<nat>): Option<nat> {
    match rateBps
    case None => None
    case Some(bps) =>
      if bps == 0 then None else Some(Max(1, Min(TWO_64 - 1, payload * 8 * 1_000_000_000 / bps)))
  }

  /** One stream's parameters with the two clock readings its loop starts from:
      `start` fixes the deadlines, `firstSlot` (read a little later) the schedule. */
  datatype Run = Run(
    sessionId: U64,
    streamId: U32,
    payload: U32,
    rateBps: Option<nat>,
    warmup: nat,
    duration: nat,
    timeout: nat,
    start: nat,
    firstSlot: nat)
  {
    function Delay(): (d: Option<nat>)
      ensures d.Some? ==> d.value >= 1
    {
      PacingDelay(payload, rateBps)
    }

    function WarmupUntil(): nat {
      start + warmup
    }

    function End(): nat {
      WarmupUntil() + duration
    }

    function DrainDeadline(): nat {
      End() + timeout
    }

    function MaxInflight(): nat {
      Max(8, Min(256, 4 * 1024 * 1024 / Max(payload, 1)))
    }
  }

  /** The packet a client sends: its header, then a payload of zeros. */
  function NewPacket(run: Run, seqNo: nat, sendNs: nat): Packet
    requires seqNo < TWO_64
  {
    Packet(NewHeader(run.sessionId, run.streamId, seqNo, sendNs % TWO_64, run.payload),
           seq(run.payload, _ => 0))
  }

  /** `stamps[i]` is the send time of packet `i + 1`. */
  ghost predicate PacedFrom(stamps: seq<nat>, t0: nat, delay: nat) {
    forall i :: 0 <= i < |stamps| ==> stamps[i] >= t0 + i * delay
  }

  /** The log of a finished stream: `n` packets, each reported once; the first `acked` of
      them, in order, with a receive time, the rest lost; the first `warm` not measured. */
  ghost predicate FinishedLog(log: seq<PacketEvent>, streamId: U32, payload: nat, n: nat, acked: nat, warm: nat) {
    && acked <= n == |log| && warm <= n
    && (forall i :: 0 <= i < n ==>
          && log[i].streamId == streamId && log[i].bytes == payload
          && 1 <= log[i].seqNo <= n
          && (log[i].measured <==> log[i].seqNo > warm)
          && (log[i].recvNs.Some? <==> i < acked))
    && (forall i :: 0 <= i < acked ==> log[i].seqNo == i + 1)
    && (forall i :: acked <= i < n ==> log[i].seqNo > acked)
    && (forall i, j :: 0 <= i < j < n ==> log[i].seqNo != log[j].seqNo)
  }

  /** No packet is received before it is sent, and receive times follow the log. */
  ghost predicate Causal(log: seq<PacketEvent>) {
    && (forall i :: 0 <= i < |log| && log[i].recvNs.Some? ==> log[i].recvNs.value >= log[i].sendNs)
    && (forall i, j :: 0 <= i < j < |log| && log[i].recvNs.Some? && log[j].recvNs.Some? ==>
          log[i].recvNs.value <= log[j].recvNs.value)
  }

  /** How many leading times fall before the warm-up is over. */
  function WarmCount(times: seq<nat>, until: nat): (w: nat)
    ensures w <= |times|
  {
    if times == [] || times[0] >= until then 0 else 1 + WarmCount(times[1..], until)
  }

  lemma {:induction false} WarmIsPrefix(times: seq<nat>, until: nat)
    requires Nondecreasing(times)
    ensures forall i :: 0 <= i < |times| ==> (times[i] < until <==> i < WarmCount(times, until))
  {
    if times != [] && times[0] < until {
      WarmIsPrefix(times[1..], until);
      assert forall i :: 1 <= i < |times| ==> times[i] == times[1..][i - 1];
    } else if times != [] {
      assert forall i :: 0 <= i < |times| ==> times[0] <= times[i];
    }
  }

  /** The log of a client that waits for each answer before the next packet: the packets
      in order, the first `warm` of them not measured, answers never before their packet. */
  ghost predicate SequentialLog(log: seq<PacketEvent>, streamId: U32, payload: nat, warm: nat) {
    forall i :: 0 <= i < |log| ==>
      && log[i].streamId == streamId && log[i].bytes == payload && log[i].seqNo == i + 1
      && (log[i].measured <==> i >= warm)
      && (log[i].recvNs.Some? ==> log[i].recvNs.value >= log[i].sendNs)
  }

  /** A packet sent after the warm-up is measured; one measured was still under way, or the
      next not yet sent, when the warm-up was over. */
  ghost predicate WarmedUp(log: seq<PacketEvent>, until: nat) {
    forall i :: 0 <= i < |log| ==>
      && (log[i].sendNs >= until ==> log[i].measured)
      && (log[i].measured && log[i].recvNs.Some? ==> log[i].recvNs.value >= until)
      && (log[i].measured && i + 1 < |log| ==> log[i + 1].sendNs >= until)
  }

  /** Packets leave no earlier than their slots, and only the last at or after the end. */
  ghost predicate OnSchedule(run: Run, stamps: seq<nat>) {
    && Nondecreasing(stamps)
    && (forall i :: 0 <= i < |stamps| - 1 ==> stamps[i] < run.End())
    && (run.Delay().Some? ==> PacedFrom(stamps, run.firstSlot, run.Delay().value))
  }

  function SendTimes(log: seq<PacketEvent>): (times: seq<nat>)
    ensures |times| == |log|
  {
    seq(|log|, i requires 0 <= i < |log| => log[i].sendNs)
  }
}
