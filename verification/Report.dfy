/**
 What a benchmark report says, as a function of the log of measured events alone: the
 per-stream counters and samples, the totals, the rows of the report and its intervals.
 */
module Report {
  import opened Base
  import opened Stream
  import opened Ranks

  // ----- the log and its parts

  predicate IsMeasured(e: PacketEvent) {
    e.measured
  }

  /** The events of one stream, in order. */
  function Project(log: seq<PacketEvent>, id: nat): seq<PacketEvent> {
    if log == [] then []
    else
      var init, e := log[..|log| - 1], log[|log| - 1];
      Project(init, id) + if e.streamId == id then [e] else []
  }

  /** The streams that occur in the log. */
  function Ids(log: seq<PacketEvent>): set<nat> {
    set e | e in log :: e.streamId
  }

  // ----- counters

  function Total(weight: PacketEvent -> nat, log: seq<PacketEvent>): nat {
    if log == [] then 0 else Total(weight, log[..|log| - 1]) + weight(log[|log| - 1])
  }

  function One(e: PacketEvent): nat { 1 }

  function AckedOne(e: PacketEvent): nat { if e.recvNs.Some? then 1 else 0 }

  function LostOne(e: PacketEvent): nat { if e.recvNs.Some? then 0 else 1 }

  function BytesOf(e: PacketEvent): nat { e.bytes }

  datatype Totals = Totals(sent: nat, acked: nat, lost: nat, bytes: nat)

  function TotalsOf(log: seq<PacketEvent>): Totals {
    Totals(Total(One, log), Total(AckedOne, log), Total(LostOne, log), Total(BytesOf, log))
  }

  // ----- samples

  /** Receive time minus send time, never below zero. */
  function Latency(e: PacketEvent): nat
    requires e.recvNs.Some?
  {
    Max(0, e.recvNs.value - e.sendNs)
  }

  function Latencies(log: seq<PacketEvent>): seq<nat> {
    if log == [] then []
    else
      var init, e := log[..|log| - 1], log[|log| - 1];
      Latencies(init) + if e.recvNs.Some? then [Latency(e)] else []
  }

  /** The sequence numbers of the acknowledged events. */
  function AckedSeqs(log: seq<PacketEvent>): seq<nat> {
    if log == [] then []
    else
      var init, e := log[..|log| - 1], log[|log| - 1];
      AckedSeqs(init) + if e.recvNs.Some? then [e.seqNo] else []
  }

  function Distance(a: nat, b: nat): nat {
    if a < b then b - a else a - b
  }

  /** The absolute differences of neighbouring latencies. */
  function Jitters(latencies: seq<nat>): seq<nat> {
    if latencies == [] then []
    else seq(|latencies| - 1, i requires 0 <= i < |latencies| - 1 => Distance(latencies[i], latencies[i + 1]))
  }

  function Last(values: seq<nat>): Option<nat> {
    if values == [] then None else Some(values[|values| - 1])
  }

  function Highest(values: seq<nat>): nat {
    if values == [] then 0 else Max(Highest(values[..|values| - 1]), values[|values| - 1])
  }

  /** A packet is reordered when one with a higher sequence number came before it. */
  ghost predicate ComesLate(seqs: seq<nat>, i: nat)
    requires i < |seqs|
  {
    exists j :: 0 <= j < i && seqs[j] > seqs[i]
  }

  ghost function LateOnes(seqs: seq<nat>): set<nat> {
    set i: nat | i < |seqs| && ComesLate(seqs, i)
  }

  /** The jitter an event adds: the distance of its latency from its stream's previous one. */
  function JitterLog(log: seq<PacketEvent>): seq<nat> {
    if log == [] then []
    else
      var init, e := log[..|log| - 1], log[|log| - 1];
      var before := Last(Latencies(Project(init, e.streamId)));
      JitterLog(init) + if e.recvNs.Some? && before.Some? then [Distance(before.value, Latency(e))] else []
  }

  // ----- one stream

  datatype StreamAccumulator = StreamAccumulator(
    sent: nat,
    acked: nat,
    lost: nat,
    reordered: nat,
    bytes: nat,
    lastSeq: nat,
    latencies: seq<nat>,
    jitters: seq<nat>,
    lastLatency: Option<nat>)

  const EMPTY_ACCUMULATOR := StreamAccumulator(0, 0, 0, 0, 0, 0, [], [], None)

  /** What a stream's accumulator holds after the given events of that stream. */
  ghost function AccumulatorOf(log: seq<PacketEvent>): StreamAccumulator {
    var latencies := Latencies(log);
    StreamAccumulator(
      Total(One, log), Total(AckedOne, log), Total(LostOne, log),
      |LateOnes(AckedSeqs(log))|,
      Total(BytesOf, log),
      Highest(AckedSeqs(log)),
      latencies, Jitters(latencies), Last(latencies))
  }

  ghost function AccumulatorsOf(log: seq<PacketEvent>): map<nat, StreamAccumulator> {
    map id | id in Ids(log) :: AccumulatorOf(Project(log, id))
  }

  // ----- rows

  /** A row of the report. Latencies and jitter are in nanoseconds. */
  datatype StreamRow = StreamRow(
    streamId: nat,
    sent: nat, acked: nat, lost: nat, reordered: nat, bytes: nat,
    throughputBps: real,
    jitter: real, p50: nat, p95: nat, p99: nat)

  datatype AggregateRow = AggregateRow(
    sent: nat, acked: nat, lost: nat, reordered: nat, bytes: nat,
    throughputBps: real, packetRate: real, lossPct: real,
    jitter: real, p50: nat, p95: nat, p99: nat)

  /** `ratio` is what each of `parts` gets of `amount`. */
  ghost predicate IsRatio(ratio: real, parts: real, amount: real) {
    ratio * parts == amount
  }

  /** An amount spread over some seconds. */
  function PerSecond(amount: real, secs: real): (rate: real)
    requires secs > 0.0
    ensures IsRatio(rate, secs, amount)
  {
    amount / secs
  }

  function RowOf(id: nat, s: StreamAccumulator, secs: real): StreamRow
    requires secs > 0.0
  {
    StreamRow(id, s.sent, s.acked, s.lost, s.reordered, s.bytes,
              PerSecond(8.0 * s.bytes as real, secs),
              Mean(s.jitters), Quantile(s.latencies, 50), Quantile(s.latencies, 95), Quantile(s.latencies, 99))
  }

  /** The rows of the streams below `n` that have an accumulator, in ascending order. */
  function Rows(streams: map<nat, StreamAccumulator>, n: nat, secs: real): seq<StreamRow>
    requires secs > 0.0
  {
    if n == 0 then []
    else Rows(streams, n - 1, secs) + if n - 1 in streams then [RowOf(n - 1, streams[n - 1], secs)] else []
  }

  function AllLatencies(streams: map<nat, StreamAccumulator>, n: nat): seq<nat> {
    if n == 0 then []
    else AllLatencies(streams, n - 1) + if n - 1 in streams then streams[n - 1].latencies else []
  }

  function AllJitters(streams: map<nat, StreamAccumulator>, n: nat): seq<nat> {
    if n == 0 then []
    else AllJitters(streams, n - 1) + if n - 1 in streams then streams[n - 1].jitters else []
  }

  function AllReordered(streams: map<nat, StreamAccumulator>, n: nat): nat {
    if n == 0 then 0
    else AllReordered(streams, n - 1) + if n - 1 in streams then streams[n - 1].reordered else 0
  }

  /** Losses in percent of what was sent. */
  function LossPct(lost: nat, sent: nat): real {
    if sent == 0 then 0.0 else lost as real * 100.0 / sent as real
  }

  function Aggregate(streams: map<nat, StreamAccumulator>, totals: Totals, n: nat, secs: real): AggregateRow
    requires secs > 0.0
  {
    var latencies := AllLatencies(streams, n);
    AggregateRow(
      totals.sent, totals.acked, totals.lost, AllReordered(streams, n), totals.bytes,
      PerSecond(8.0 * totals.bytes as real, secs), PerSecond(totals.sent as real, secs), LossPct(totals.lost, totals.sent),
      Mean(AllJitters(streams, n)), Quantile(latencies, 50), Quantile(latencies, 95), Quantile(latencies, 99))
  }

  // ----- intervals

  datatype IntervalStats = IntervalStats(
    index: nat,
    startMs: nat,
    endMs: nat,
    bytes: nat, sent: nat, acked: nat, lost: nat,
    throughputBps: real, packetRate: real, lossPct: real,
    jitter: real, p50: nat, p95: nat, p99: nat)

  /** `saturating_sub`. */
  function Minus(a: nat, b: nat): nat {
    if a < b then 0 else a - b
  }

  function Seconds(nanos: nat): (s: real)
    ensures s > 0.0
  {
    var s := nanos as real / 1_000_000_000.0;
    if s < 0.000_001 then 0.000_001 else s
  }

  function BuildInterval(index: nat, span: nat, totals: Totals, prev: Totals,
                         latencies: seq<nat>, jitters: seq<nat>, measurementStart: nat, now: nat): IntervalStats
  {
    var bytes := Minus(totals.bytes, prev.bytes);
    var sent := Minus(totals.sent, prev.sent);
    var acked := Minus(totals.acked, prev.acked);
    var lost := Minus(totals.lost, prev.lost);
    IntervalStats(
      index,
      Minus(Minus(now, measurementStart), span) / MILLISECOND,
      Minus(now, measurementStart) / MILLISECOND,
      bytes, sent, acked, lost,
      PerSecond(8.0 * bytes as real, Seconds(span)), PerSecond(sent as real, Seconds(span)), LossPct(lost, sent),
      Mean(jitters), Quantile(latencies, 50), Quantile(latencies, 95), Quantile(latencies, 99))
  }

  /** The time an interval is taken to cover: since the last tick, or since measurement
      began; the nominal interval when no time has passed. */
  function EffectiveSpan(lastTick: Option<nat>, measurementStart: nat, interval: nat, now: nat): nat {
    var since := match lastTick case Some(t) => t case None => measurementStart;
    var span := Minus(now, since);
    if span == 0 then interval else span
  }
}
