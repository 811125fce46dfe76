/**
 The event and tick loop of a run. Its accumulators are updated in place, one event or
 tick at a time; a ghost log ties each of them to the batch definitions of `Report`.
 */
module Reducer {
  import opened Base
  import opened Stream
  import opened Report
  import opened ReportLemmas

  /** What the loop receives: an event of some stream, or a tick of the interval timer. */
  datatype Item = Event(e: PacketEvent) | Tick(now: nat)

  /** All events of an interleaving, in order of arrival. */
  function Events(items: seq<Item>): seq<PacketEvent> {
    if items == [] then []
    else
      var item := items[|items| - 1];
      Events(items[..|items| - 1]) + if item.Event? then [item.e] else []
  }

  function MeasuredLog(items: seq<Item>): seq<PacketEvent> {
    Filter(IsMeasured, Events(items))
  }

  /** The ticks that close an interval: those not before the measurement starts. */
  function Ticks(items: seq<Item>, measurementStart: nat): seq<nat> {
    if items == [] then []
    else
      var item := items[|items| - 1];
      Ticks(items[..|items| - 1], measurementStart)
      + if item.Tick? && item.now >= measurementStart then [item.now] else []
  }

  /** How much of the log each closed interval had seen. */
  function Cuts(items: seq<Item>, measurementStart: nat): seq<nat> {
    if items == [] then []
    else
      var init, item := items[..|items| - 1], items[|items| - 1];
      Cuts(init, measurementStart)
      + if item.Tick? && item.now >= measurementStart then [|MeasuredLog(init)|] else []
  }

  // ----- the intervals a log, its cuts and its ticks determine

  function CutBefore(cuts: seq<nat>, i: nat): nat
    requires i <= |cuts|
  {
    if i == 0 then 0 else cuts[i - 1]
  }

  predicate CutsOf(cuts: seq<nat>, log: seq<PacketEvent>) {
    && (forall i :: 0 <= i < |cuts| ==> cuts[i] <= |log|)
    && (forall i :: 0 <= i < |cuts| ==> CutBefore(cuts, i) <= cuts[i])
  }

  /** The `i`-th interval: the events between two cuts, timed by the tick that closed it. */
  function IntervalAt(log: seq<PacketEvent>, cuts: seq<nat>, ticks: seq<nat>, measurementStart: nat,
                      interval: nat, i: nat): IntervalStats
    requires CutsOf(cuts, log) && |ticks| == |cuts| && i < |cuts|
  {
    var before, upTo := log[..CutBefore(cuts, i)], log[..cuts[i]];
    BuildInterval(
      i,
      EffectiveSpan(Last(ticks[..i]), measurementStart, interval, ticks[i]),
      TotalsOf(upTo), TotalsOf(before),
      Latencies(upTo[CutBefore(cuts, i)..]),
      NewJitters(before, upTo),
      measurementStart, ticks[i])
  }

  /** The jitters that the events after `before` have added. */
  function NewJitters(before: seq<PacketEvent>, upTo: seq<PacketEvent>): seq<nat> {
    var all := JitterLog(upTo);
    all[Min(|JitterLog(before)|, |all|)..]
  }

  ghost predicate IntervalsMatch(intervals: seq<IntervalStats>, log: seq<PacketEvent>, cuts: seq<nat>,
                                 ticks: seq<nat>, measurementStart: nat, interval: nat)
  {
    && CutsOf(cuts, log) && |intervals| == |cuts| == |ticks|
    && forall i :: 0 <= i < |intervals| ==>
         intervals[i] == IntervalAt(log, cuts, ticks, measurementStart, interval, i)
  }

  // ----- one event

  /** What one more event does to its stream's accumulator. */
  lemma AccumulatorSnoc(log: seq<PacketEvent>, e: PacketEvent)
    ensures var s, s' := AccumulatorOf(log), AccumulatorOf(log + [e]);
            && s'.sent == s.sent + 1 && s'.bytes == s.bytes + e.bytes
            && (e.recvNs.None? ==> s' == s.(sent := s'.sent, bytes := s'.bytes, lost := s.lost + 1))
            && (e.recvNs.Some? ==>
                  var l := Latency(e);
                  s' == s.(sent := s'.sent, bytes := s'.bytes, acked := s.acked + 1,
                           reordered := s.reordered + if s.lastSeq > e.seqNo then 1 else 0,
                           lastSeq := Max(s.lastSeq, e.seqNo),
                           latencies := s.latencies + [l],
                           jitters := s.jitters
                             + (match s.lastLatency case None => [] case Some(p) => [Distance(p, l)]),
                           lastLatency := Some(l)))
  {
    hide LateOnes, Highest, Jitters, Total, Latencies, AckedSeqs;
    TotalSnoc(One, log, e);
    TotalSnoc(AckedOne, log, e);
    TotalSnoc(LostOne, log, e);
    TotalSnoc(BytesOf, log, e);
    SamplesSnoc(log, e);
    if e.recvNs.Some? {
      LateSnoc(AckedSeqs(log), e.seqNo);
      JittersSnoc(Latencies(log), Latency(e));
    } else {
      assert Latencies(log) + [] == Latencies(log) && AckedSeqs(log) + [] == AckedSeqs(log);
    }
  }

  lemma EmptyAccumulator()
    ensures AccumulatorOf([]) == EMPTY_ACCUMULATOR
  {
    assert LateOnes([]) == {};
  }

  lemma AccumulatorsSnoc(log: seq<PacketEvent>, e: PacketEvent)
    ensures AccumulatorsOf(log + [e])
         == AccumulatorsOf(log)[e.streamId := AccumulatorOf(Project(log, e.streamId) + [e])]
    ensures e.streamId !in AccumulatorsOf(log) ==> AccumulatorOf(Project(log, e.streamId)) == EMPTY_ACCUMULATOR
  {
    hide AccumulatorOf, Project;
    var log' := log + [e];
    forall id | id in Ids(log') ensures Project(log', id) == if id == e.streamId then Project(log, id) + [e] else Project(log, id)
    {
      ProjectSnoc(log, e, id);
    }
    assert Ids(log') == Ids(log) + {e.streamId};
    ProjectIsPresent(log, e.streamId);
    EmptyAccumulator();
  }

  /** Growing the log leaves closed intervals as they are. */
  lemma IntervalsStay(intervals: seq<IntervalStats>, log: seq<PacketEvent>, e: PacketEvent, cuts: seq<nat>,
                      ticks: seq<nat>, measurementStart: nat, interval: nat)
    requires IntervalsMatch(intervals, log, cuts, ticks, measurementStart, interval)
    ensures IntervalsMatch(intervals, log + [e], cuts, ticks, measurementStart, interval)
  {
    hide BuildInterval;
    forall i | 0 <= i < |intervals|
      ensures IntervalAt(log + [e], cuts, ticks, measurementStart, interval, i)
           == IntervalAt(log, cuts, ticks, measurementStart, interval, i)
    {
      assert (log + [e])[..cuts[i]] == log[..cuts[i]];
      assert (log + [e])[..CutBefore(cuts, i)] == log[..CutBefore(cuts, i)];
    }
  }

  lemma JitterLogSnoc(log: seq<PacketEvent>, e: PacketEvent)
    ensures JitterLog(log + [e]) == JitterLog(log)
      + (var before := Last(Latencies(Project(log, e.streamId)));
         if e.recvNs.Some? && before.Some? then [Distance(before.value, Latency(e))] else [])
  {
    Snoc(log, e);
  }

  /** Adds an event to its stream's accumulator; `jitter` is the sample it adds, if any. */
  method AddToStream(ghost before: seq<PacketEvent>, s: StreamAccumulator, e: PacketEvent)
    returns (stream: StreamAccumulator, jitter: seq<nat>)
    requires s == AccumulatorOf(before)
    ensures stream == AccumulatorOf(before + [e])
    ensures if e.recvNs.Some? && s.lastLatency.Some? then
              var last, now := s.lastLatency.value, Latency(e);
              jitter == if last < now then [now - last] else [last - now]
            else jitter == []
  {
    hide AccumulatorOf;
    AccumulatorSnoc(before, e);
    jitter := [];
    stream := s.(sent := s.sent + 1, bytes := s.bytes + e.bytes);
    if e.recvNs.Some? {
      var latency := Latency(e);
      stream := stream.(acked := stream.acked + 1, latencies := stream.latencies + [latency]);
      if stream.lastLatency.Some? {
        jitter := [Distance(stream.lastLatency.value, latency)];
        stream := stream.(jitters := stream.jitters + jitter);
      }
      stream := stream.(lastLatency := Some(latency));
      if stream.lastSeq > e.seqNo {
        stream := stream.(reordered := stream.reordered + 1);
      }
      stream := stream.(lastSeq := Max(stream.lastSeq, e.seqNo));
    } else {
      stream := stream.(lost := stream.lost + 1);
    }
    assert s.jitters + [] == s.jitters;
  }

  /** Adds an event to the totals; `sample` is its latency, if it has one. */
  method AddToTotals(before: Totals, e: PacketEvent) returns (totals: Totals, sample: seq<nat>)
    ensures totals == Totals(before.sent + 1, before.acked + AckedOne(e), before.lost + LostOne(e),
                             before.bytes + e.bytes)
    ensures sample == if e.recvNs.Some? then [Latency(e)] else []
  {
    totals := before.(sent := before.sent + 1, bytes := before.bytes + e.bytes);
    if e.recvNs.Some? {
      totals, sample := totals.(acked := totals.acked + 1), [Latency(e)];
    } else {
      totals, sample := totals.(lost := totals.lost + 1), [];
    }
  }

  // ----- the loop

  /** The accumulators of the loop. */
  datatype Accumulators = Accumulators(
    streams: map<nat, StreamAccumulator>,
    totals: Totals,
    totalsPrev: Totals,
    intervals: seq<IntervalStats>,
    intervalIdx: nat,
    lastIntervalTick: Option<nat>,
    intervalLatencies: seq<nat>,
    intervalJitters: seq<nat>,
    globalLatencies: seq<nat>)

  /** The accumulators hold what the measured log, and the places and times of the ticks
      that closed an interval, determine. */
  ghost predicate Consistent(acc: Accumulators, log: seq<PacketEvent>, cuts: seq<nat>, ticks: seq<nat>,
                             measurementStart: nat, interval: nat)
  {
    var last := CutBefore(cuts, |cuts|);
    && acc.streams == AccumulatorsOf(log)
    && acc.totals == TotalsOf(log)
    && acc.globalLatencies == Latencies(log)
    && IntervalsMatch(acc.intervals, log, cuts, ticks, measurementStart, interval)
    && last <= |log|
    && acc.totalsPrev == TotalsOf(log[..last])
    && acc.intervalLatencies == Latencies(log[last..])
    && JitterLog(log) == JitterLog(log[..last]) + acc.intervalJitters
    && acc.intervalIdx == |acc.intervals|
    && acc.lastIntervalTick == Last(ticks)
  }

  lemma TotalsSnoc(log: seq<PacketEvent>, e: PacketEvent)
    ensures var t := TotalsOf(log);
            TotalsOf(log + [e]) == Totals(t.sent + 1, t.acked + AckedOne(e), t.lost + LostOne(e), t.bytes + e.bytes)
  {
    hide Total;
    TotalSnoc(One, log, e);
    TotalSnoc(AckedOne, log, e);
    TotalSnoc(LostOne, log, e);
    TotalSnoc(BytesOf, log, e);
  }

  /** An event that is added to its stream, to the totals and to the samples keeps all
      accumulators consistent with the longer log. */
  lemma EventKeeps(acc: Accumulators, log: seq<PacketEvent>, cuts: seq<nat>, ticks: seq<nat>,
                   measurementStart: nat, interval: nat, e: PacketEvent,
                   stream: StreamAccumulator, totals: Totals, jitter: seq<nat>, sample: seq<nat>)
    requires Consistent(acc, log, cuts, ticks, measurementStart, interval)
    requires stream == AccumulatorOf(Project(log, e.streamId) + [e])
    requires totals == Totals(acc.totals.sent + 1, acc.totals.acked + AckedOne(e), acc.totals.lost + LostOne(e),
                              acc.totals.bytes + e.bytes)
    requires sample == if e.recvNs.Some? then [Latency(e)] else []
    requires var before := Last(Latencies(Project(log, e.streamId)));
             jitter == if e.recvNs.Some? && before.Some? then [Distance(before.value, Latency(e))] else []
    ensures Consistent(
              acc.(streams := acc.streams[e.streamId := stream], totals := totals,
                   intervalLatencies := acc.intervalLatencies + sample,
                   globalLatencies := acc.globalLatencies + sample,
                   intervalJitters := acc.intervalJitters + jitter),
              log + [e], cuts, ticks, measurementStart, interval)
  {
    hide AccumulatorOf, AccumulatorsOf, Project, TotalsOf, Latencies, JitterLog, IntervalsMatch, Distance, Last,
         Latency, AckedOne, LostOne;
    var last := CutBefore(cuts, |cuts|);
    AccumulatorsSnoc(log, e);
    TotalsSnoc(log, e);
    SamplesSnoc(log, e);
    SinceCut(log, e, last);
    JitterLogSnoc(log, e);
    IntervalsStay(acc.intervals, log, e, cuts, ticks, measurementStart, interval);
    Associates(JitterLog(log[..last]), acc.intervalJitters, jitter);
  }

  lemma SinceCut(log: seq<PacketEvent>, e: PacketEvent, last: nat)
    requires last <= |log|
    ensures (log + [e])[..last] == log[..last]
    ensures Latencies((log + [e])[last..]) == Latencies(log[last..]) + if e.recvNs.Some? then [Latency(e)] else []
  {
    hide Latencies, Latency;
    assert (log + [e])[last..] == log[last..] + [e];
    SamplesSnoc(log[last..], e);
  }

  lemma Associates(a: seq<nat>, b: seq<nat>, c: seq<nat>)
    ensures a + b + c == a + (b + c)
  {
  }

  /** A tick after the measurement has begun closes an interval and starts the next. */
  lemma TickKeeps(acc: Accumulators, log: seq<PacketEvent>, cuts: seq<nat>, ticks: seq<nat>,
                  measurementStart: nat, interval: nat, now: nat, stats: IntervalStats)
    requires Consistent(acc, log, cuts, ticks, measurementStart, interval)
    requires stats == BuildInterval(acc.intervalIdx, EffectiveSpan(acc.lastIntervalTick, measurementStart, interval, now),
                                    acc.totals, acc.totalsPrev, acc.intervalLatencies, acc.intervalJitters,
                                    measurementStart, now)
    ensures Consistent(
              acc.(totalsPrev := acc.totals, lastIntervalTick := Some(now), intervalLatencies := [],
                   intervalJitters := [], intervals := acc.intervals + [stats], intervalIdx := acc.intervalIdx + 1),
              log, cuts + [|log|], ticks + [now], measurementStart, interval)
  {
    hide AccumulatorsOf, TotalsOf, Latencies, JitterLog, BuildInterval, EffectiveSpan, IntervalsMatch;
    TickClosesInterval(acc.intervals, log, cuts, ticks, measurementStart, interval, stats, now,
                       acc.intervalLatencies, acc.intervalJitters);
    assert log[..|log|] == log && log[|log|..] == [];
    assert Latencies([]) == [] by { NoLatencies(); }
    assert JitterLog(log) + [] == JitterLog(log);
  }

  /** The stream's accumulator, or a fresh one, stands for the stream's part of the log. */
  lemma StreamOf(acc: Accumulators, log: seq<PacketEvent>, cuts: seq<nat>, ticks: seq<nat>,
                 measurementStart: nat, interval: nat, id: nat)
    requires Consistent(acc, log, cuts, ticks, measurementStart, interval)
    ensures var stream := if id in acc.streams then acc.streams[id] else EMPTY_ACCUMULATOR;
            stream == AccumulatorOf(Project(log, id)) && stream.lastLatency == Last(Latencies(Project(log, id)))
  {
    hide Project, Latencies, Total, LateOnes, Jitters, AckedSeqs, Highest, TotalsOf, IntervalsMatch, JitterLog;
    ProjectIsPresent(log, id);
    EmptyAccumulator();
  }

  class RunReducer {
    const measurementStart: nat
    const interval: nat
    var streams: map<nat, StreamAccumulator>
    var totals: Totals
    var totalsPrev: Totals
    var intervals: seq<IntervalStats>
    var intervalIdx: nat
    var lastIntervalTick: Option<nat>
    var intervalLatencies: seq<nat>
    var intervalJitters: seq<nat>
    var globalLatencies: seq<nat>
    ghost var log: seq<PacketEvent>
    ghost var cuts: seq<nat>
    ghost var ticks: seq<nat>

    ghost function Accumulated(): Accumulators
      reads this
    {
      Accumulators(streams, totals, totalsPrev, intervals, intervalIdx, lastIntervalTick,
                   intervalLatencies, intervalJitters, globalLatencies)
    }

    ghost predicate Valid()
      reads this
    {
      Consistent(Accumulated(), log, cuts, ticks, measurementStart, interval)
    }

    constructor (measurementStart: nat, interval: nat)
      ensures Valid() && log == [] && cuts == [] && ticks == []
      ensures this.measurementStart == measurementStart && this.interval == interval
    {
      this.measurementStart, this.interval := measurementStart, interval;
      streams := map[];
      totals, totalsPrev := Totals(0, 0, 0, 0), Totals(0, 0, 0, 0);
      intervals, intervalIdx, lastIntervalTick := [], 0, None;
      intervalLatencies, intervalJitters, globalLatencies := [], [], [];
      log, cuts, ticks := [], [], [];
    }

    /** Adds one measured event to every accumulator. */
    method ApplyEvent(e: PacketEvent)
      requires Valid()
      modifies this
      ensures Valid() && log == old(log) + [e] && cuts == old(cuts) && ticks == old(ticks)
    {
      hide Consistent, AccumulatorOf, AccumulatorsOf, Project, Latencies, Latency, Last, AckedOne, LostOne,
           Ids, TotalsOf, Total;
      ghost var acc := Accumulated();
      StreamOf(acc, log, cuts, ticks, measurementStart, interval, e.streamId);
      var stream := if e.streamId in streams then streams[e.streamId] else EMPTY_ACCUMULATOR;
      var jitter, sample, sums;
      stream, jitter := AddToStream(Project(log, e.streamId), stream, e);
      sums, sample := AddToTotals(totals, e);
      EventKeeps(acc, log, cuts, ticks, measurementStart, interval, e, stream, sums, jitter, sample);
      streams, totals := streams[e.streamId := stream], sums;
      intervalLatencies, globalLatencies := intervalLatencies + sample, globalLatencies + sample;
      intervalJitters := intervalJitters + jitter;
      log := log + [e];
    }

    /** Closes an interval, unless the measurement has not begun. */
    method OnTick(now: nat)
      requires Valid()
      modifies this
      ensures Valid() && log == old(log)
      ensures if now < measurementStart then cuts == old(cuts) && ticks == old(ticks)
              else cuts == old(cuts) + [|log|] && ticks == old(ticks) + [now]
    {
      hide Consistent, BuildInterval, EffectiveSpan;
      if now < measurementStart {
        return;
      }
      var span := EffectiveSpan(lastIntervalTick, measurementStart, interval, now);
      var stats := BuildInterval(intervalIdx, span, totals, totalsPrev, intervalLatencies, intervalJitters,
                                 measurementStart, now);
      TickKeeps(Accumulated(), log, cuts, ticks, measurementStart, interval, now, stats);
      totalsPrev := totals;
      lastIntervalTick := Some(now);
      intervalLatencies, intervalJitters := [], [];
      intervals := intervals + [stats];
      intervalIdx := intervalIdx + 1;
      cuts, ticks := cuts + [|log|], ticks + [now];
    }

    /** The report of the run: one row per stream in ascending order, and the aggregate. */
    method Finish(streamCount: nat, duration: nat) returns (rows: seq<StreamRow>, aggregate: AggregateRow)
      requires Valid()
      ensures (rows, aggregate) == ReportOf(log, streamCount, Seconds(duration))
    {
      var secs := Seconds(duration);
      rows := Rows(streams, streamCount, secs);
      aggregate := Aggregate(streams, totals, streamCount, secs);
    }
  }

  /** The rows and the aggregate of a log of events from streams below `n`. */
  ghost function ReportOf(log: seq<PacketEvent>, n: nat, secs: real): (seq<StreamRow>, AggregateRow)
    requires secs > 0.0
  {
    (Rows(AccumulatorsOf(log), n, secs), Aggregate(AccumulatorsOf(log), TotalsOf(log), n, secs))
  }

  lemma NoLatencies()
    ensures Latencies([]) == []
  {
  }

  /** The interval built at a tick is the one the cuts and ticks determine. */
  lemma TickClosesInterval(intervals: seq<IntervalStats>, log: seq<PacketEvent>, cuts: seq<nat>, ticks: seq<nat>,
                           measurementStart: nat, interval: nat, stats: IntervalStats, now: nat,
                           latencies: seq<nat>, jitters: seq<nat>)
    requires IntervalsMatch(intervals, log, cuts, ticks, measurementStart, interval)
    requires CutBefore(cuts, |cuts|) <= |log| && latencies == Latencies(log[CutBefore(cuts, |cuts|)..])
    requires JitterLog(log) == JitterLog(log[..CutBefore(cuts, |cuts|)]) + jitters
    requires stats == BuildInterval(|intervals|, EffectiveSpan(Last(ticks), measurementStart, interval, now),
                                    TotalsOf(log), TotalsOf(log[..CutBefore(cuts, |cuts|)]),
                                    latencies, jitters, measurementStart, now)
    ensures IntervalsMatch(intervals + [stats], log, cuts + [|log|], ticks + [now], measurementStart, interval)
  {
    hide IntervalAt, BuildInterval, EffectiveSpan, JitterLog, Latencies, TotalsOf, Last, CutsOf, CutBefore;
    CutsSnoc(cuts, log);
    forall i | 0 <= i < |intervals|
      ensures IntervalAt(log, cuts + [|log|], ticks + [now], measurementStart, interval, i)
           == IntervalAt(log, cuts, ticks, measurementStart, interval, i)
    {
      EarlierInterval(log, cuts, ticks, measurementStart, interval, now, i);
    }
    NewestInterval(log, cuts, ticks, measurementStart, interval, now, jitters);
  }

  lemma CutsSnoc(cuts: seq<nat>, log: seq<PacketEvent>)
    requires CutsOf(cuts, log)
    ensures CutsOf(cuts + [|log|], log)
    ensures CutBefore(cuts + [|log|], |cuts|) == CutBefore(cuts, |cuts|) <= |log|
  {
  }

  /** A further tick does not change the intervals closed before. */
  lemma EarlierInterval(log: seq<PacketEvent>, cuts: seq<nat>, ticks: seq<nat>, measurementStart: nat,
                        interval: nat, now: nat, i: nat)
    requires CutsOf(cuts, log) && |ticks| == |cuts| && i < |cuts|
    ensures CutsOf(cuts + [|log|], log)
    ensures IntervalAt(log, cuts + [|log|], ticks + [now], measurementStart, interval, i)
         == IntervalAt(log, cuts, ticks, measurementStart, interval, i)
  {
    hide BuildInterval, EffectiveSpan, NewJitters, Latencies, TotalsOf, Last;
    assert (ticks + [now])[..i] == ticks[..i];
  }

  lemma NewestInterval(log: seq<PacketEvent>, cuts: seq<nat>, ticks: seq<nat>, measurementStart: nat,
                       interval: nat, now: nat, jitters: seq<nat>)
    requires CutsOf(cuts, log) && |ticks| == |cuts|
    requires JitterLog(log) == JitterLog(log[..CutBefore(cuts, |cuts|)]) + jitters
    ensures CutsOf(cuts + [|log|], log)
    ensures IntervalAt(log, cuts + [|log|], ticks + [now], measurementStart, interval, |cuts|)
         == BuildInterval(|cuts|, EffectiveSpan(Last(ticks), measurementStart, interval, now),
                          TotalsOf(log), TotalsOf(log[..CutBefore(cuts, |cuts|)]),
                          Latencies(log[CutBefore(cuts, |cuts|)..]), jitters, measurementStart, now)
  {
    hide BuildInterval, EffectiveSpan, NewJitters, Latencies, TotalsOf, Last, JitterLog, CutsOf, CutBefore;
    CutsSnoc(cuts, log);
    assert (ticks + [now])[..|cuts|] == ticks && log[..|log|] == log;
    JittersSince(log[..CutBefore(cuts, |cuts|)], log, jitters);
  }

  lemma JittersSince(before: seq<PacketEvent>, log: seq<PacketEvent>, jitters: seq<nat>)
    requires JitterLog(log) == JitterLog(before) + jitters
    ensures NewJitters(before, log) == jitters
  {
    hide JitterLog;
  }

  /** The whole loop, over any interleaving of events and ticks: its state is what the
      measured events, and where the ticks fell among them, determine. */
  method RunLoop(items: seq<Item>, measurementStart: nat, interval: nat) returns (r: RunReducer)
    ensures r.Valid() && r.measurementStart == measurementStart && r.interval == interval
    ensures r.log == MeasuredLog(items) && r.globalLatencies == Latencies(r.log)
    ensures r.cuts == Cuts(items, measurementStart) && r.ticks == Ticks(items, measurementStart)
  {
    hide MeasuredLog, Cuts, Ticks, Consistent;
    r := new RunReducer(measurementStart, interval);
    NoItems(measurementStart);
    for i := 0 to |items|
      invariant fresh(r) && r.Valid() && r.measurementStart == measurementStart && r.interval == interval
      invariant r.log == MeasuredLog(items[..i])
      invariant r.cuts == Cuts(items[..i], measurementStart) && r.ticks == Ticks(items[..i], measurementStart)
    {
      assert items[..i + 1] == items[..i] + [items[i]];
      ItemsSnoc(items[..i], items[i], measurementStart);
      match items[i] {
        case Event(e) =>
          if e.measured {
            r.ApplyEvent(e);
          }
        case Tick(now) =>
          r.OnTick(now);
      }
    }
    assert items[..|items|] == items;
    assert r.globalLatencies == Latencies(r.log) by { SamplesMatch(r); }
  }

  lemma SamplesMatch(r: RunReducer)
    requires r.Valid()
    ensures r.globalLatencies == Latencies(r.log)
  {
    hide Latencies;
  }

  lemma NoItems(measurementStart: nat)
    ensures MeasuredLog([]) == [] && Cuts([], measurementStart) == [] && Ticks([], measurementStart) == []
  {
  }

  lemma ItemsSnoc(items: seq<Item>, item: Item, measurementStart: nat)
    ensures var items' := items + [item];
            var accepted := item.Tick? && item.now >= measurementStart;
            && Events(items') == Events(items) + (if item.Event? then [item.e] else [])
            && MeasuredLog(items')
               == (if item.Event? && item.e.measured then MeasuredLog(items) + [item.e] else MeasuredLog(items))
            && Cuts(items', measurementStart)
               == (if accepted then Cuts(items, measurementStart) + [|MeasuredLog(items)|]
                   else Cuts(items, measurementStart))
            && Ticks(items', measurementStart)
               == (if accepted then Ticks(items, measurementStart) + [item.now] else Ticks(items, measurementStart))
  {
    hide Filter;
    var items' := items + [item];
    assert items'[..|items'| - 1] == items && items'[|items'| - 1] == item;
    if item.Event? {
      FilterSnoc(IsMeasured, Events(items), item.e);
      assert MeasuredLog(items) + [] == MeasuredLog(items);
    } else {
      assert Events(items) + [] == Events(items);
    }
    assert Cuts(items, measurementStart) + [] == Cuts(items, measurementStart);
    assert Ticks(items, measurementStart) + [] == Ticks(items, measurementStart);
  }
}
