/** What every report satisfies, whatever the interleaving it was computed from. */
module ReportTheorems {
  import opened Base
  import opened Stream
  import opened Ranks
  import opened Report
  import opened ReportLemmas
  import opened Reducer

  ghost predicate StreamsBelow(log: seq<PacketEvent>, n: nat) {
    forall i :: 0 <= i < |log| ==> log[i].streamId < n
  }

  // ----- the report depends on the streams' own logs only

  lemma {:induction false} SameOverStreams(weight: PacketEvent -> nat, a: seq<PacketEvent>, b: seq<PacketEvent>, n: nat)
    requires forall id :: Project(a, id) == Project(b, id)
    ensures TotalOverStreams(weight, a, n) == TotalOverStreams(weight, b, n)
  {
    if n > 0 {
      SameOverStreams(weight, a, b, n - 1);
    }
  }

  lemma SameStreamsSameReport(a: seq<PacketEvent>, b: seq<PacketEvent>, n: nat)
    requires forall id :: Project(a, id) == Project(b, id)
    requires StreamsBelow(a, n) && StreamsBelow(b, n)
    ensures AccumulatorsOf(a) == AccumulatorsOf(b) && TotalsOf(a) == TotalsOf(b)
  {
    hide AccumulatorOf, Project;
    forall id ensures id in Ids(a) <==> id in Ids(b) {
      ProjectIsPresent(a, id);
      ProjectIsPresent(b, id);
    }
    assert Ids(a) == Ids(b);
    forall weight | weight in [One, AckedOne, LostOne, BytesOf] ensures Total(weight, a) == Total(weight, b) {
      SameOverStreams(weight, a, b, n);
      TotalsAreSums(weight, a, n);
      TotalsAreSums(weight, b, n);
    }
    assert One in [One, AckedOne, LostOne, BytesOf] && AckedOne in [One, AckedOne, LostOne, BytesOf];
    assert LostOne in [One, AckedOne, LostOne, BytesOf] && BytesOf in [One, AckedOne, LostOne, BytesOf];
  }

  lemma {:induction false} FilteredStreamsBelow(log: seq<PacketEvent>, n: nat)
    requires StreamsBelow(log, n)
    ensures StreamsBelow(Filter(IsMeasured, log), n)
  {
    if log != [] {
      FilteredStreamsBelow(log[..|log| - 1], n);
    }
  }

  /** Two runs in which every stream reported the same events, however the streams were
      interleaved and wherever the ticks fell, have the same rows and the same aggregate,
      quantiles and jitter included. */
  lemma ScheduleIndependence(a: seq<Item>, b: seq<Item>, n: nat, secs: real)
    requires secs > 0.0
    requires forall id :: Project(Events(a), id) == Project(Events(b), id)
    requires StreamsBelow(Events(a), n) && StreamsBelow(Events(b), n)
    ensures ReportOf(MeasuredLog(a), n, secs) == ReportOf(MeasuredLog(b), n, secs)
  {
    hide AccumulatorsOf, TotalsOf, Project, Events, Filter;
    forall id ensures Project(MeasuredLog(a), id) == Project(MeasuredLog(b), id) {
      ProjectOfMeasured(Events(a), id);
      ProjectOfMeasured(Events(b), id);
    }
    FilteredStreamsBelow(Events(a), n);
    FilteredStreamsBelow(Events(b), n);
    SameStreamsSameReport(MeasuredLog(a), MeasuredLog(b), n);
  }

  // ----- rows and totals

  /** The rows are exactly the streams present, each once, in ascending order. */
  ghost predicate ListsStreams(rows: seq<StreamRow>, streams: map<nat, StreamAccumulator>, n: nat, secs: real)
    requires secs > 0.0
  {
    && (forall i, j :: 0 <= i < j < |rows| ==> rows[i].streamId < rows[j].streamId)
    && (forall k :: 0 <= k < |rows| ==> IsRow(streams, n, secs, rows[k]))
    && (forall id :: id in streams && id < n ==> HasRow(rows, id))
  }

  ghost predicate HasRow(rows: seq<StreamRow>, id: nat) {
    exists k :: 0 <= k < |rows| && rows[k].streamId == id
  }

  lemma {:induction false} RowsListStreams(streams: map<nat, StreamAccumulator>, n: nat, secs: real)
    requires secs > 0.0
    ensures ListsStreams(Rows(streams, n, secs), streams, n, secs)
  {
    hide RowOf;
    if n > 0 {
      RowsListStreams(streams, n - 1, secs);
      if n - 1 in streams {
        RowNamesItsStream(n - 1, streams[n - 1], secs);
        RowJoins(Rows(streams, n - 1, secs), streams, n - 1, secs, RowOf(n - 1, streams[n - 1], secs));
      } else {
        assert Rows(streams, n - 1, secs) + [] == Rows(streams, n - 1, secs);
      }
    }
  }

  lemma RowJoins(rows: seq<StreamRow>, streams: map<nat, StreamAccumulator>, n: nat, secs: real, row: StreamRow)
    requires secs > 0.0 && ListsStreams(rows, streams, n, secs)
    requires n in streams && row == RowOf(n, streams[n], secs) && row.streamId == n
    ensures ListsStreams(rows + [row], streams, n + 1, secs)
  {
    hide RowOf;
    var rows' := rows + [row];
    forall id | id in streams && id < n + 1 ensures HasRow(rows', id) {
      if id < n {
        assert HasRow(rows, id);
        var k :| 0 <= k < |rows| && rows[k].streamId == id;
        assert rows'[k].streamId == id;
      } else {
        assert rows'[|rows|].streamId == id;
      }
    }
  }

  ghost predicate IsRow(streams: map<nat, StreamAccumulator>, n: nat, secs: real, row: StreamRow)
    requires secs > 0.0
  {
    row.streamId in streams && row.streamId < n && row == RowOf(row.streamId, streams[row.streamId], secs)
  }

  lemma RowNamesItsStream(id: nat, s: StreamAccumulator, secs: real)
    requires secs > 0.0
    ensures RowOf(id, s, secs).streamId == id
  {
    hide Quantile, Mean, PerSecond;
  }

  /** Within a stream: everything sent is acknowledged or lost; there is one latency per
      acknowledgement and one jitter per neighbouring pair, the absolute difference of the
      two; jitter is their mean, the quantiles are those of the latencies and in order, and
      throughput times the time measured is the bits sent. */
  lemma RowIsConsistent(log: seq<PacketEvent>, id: nat, secs: real)
    requires secs > 0.0
    ensures var s := AccumulatorOf(log);
            var row, l, jitters := RowOf(id, s, secs), s.latencies, s.jitters;
            && row.streamId == id
            && row.sent == row.acked + row.lost == |log|
            && |l| == row.acked
            && |jitters| == (if row.acked == 0 then 0 else row.acked - 1)
            && (forall i :: 0 <= i < |jitters| ==>
                  && (l[i] <= l[i + 1] ==> jitters[i] == l[i + 1] - l[i])
                  && (l[i + 1] <= l[i] ==> jitters[i] == l[i] - l[i + 1]))
            && row.jitter == Mean(jitters)
            && row.p50 == Quantile(l, 50) <= row.p95 == Quantile(l, 95)
            && row.p95 <= row.p99 == Quantile(l, 99)
            && IsRatio(row.throughputBps, secs, 8.0 * row.bytes as real)
  {
    hide Quantile, LateOnes, Total, Latencies, AckedSeqs, Mean, Highest, PerSecond, Jitters, IsRatio;
    SentIsAckedPlusLost(log);
    JittersAreDistances(Latencies(log));
    QuantileIsMonotone(Latencies(log), 50, 95);
    QuantileIsMonotone(Latencies(log), 95, 99);
  }

  lemma JittersAreDistances(l: seq<nat>)
    ensures |Jitters(l)| == if l == [] then 0 else |l| - 1
    ensures forall i :: 0 <= i < |Jitters(l)| ==>
              && (l[i] <= l[i + 1] ==> Jitters(l)[i] == l[i + 1] - l[i])
              && (l[i + 1] <= l[i] ==> Jitters(l)[i] == l[i] - l[i + 1])
  {
  }

  /** The latencies of the whole log, in whatever order they arrived, are those of the
      streams taken one after another. */
  lemma {:induction false} LatenciesOfStreams(log: seq<PacketEvent>, n: nat)
    ensures AllLatencies(AccumulatorsOf(log), n) == LatenciesBelow(log, n)
  {
    hide Project, Latencies;
    if n > 0 {
      LatenciesOfStreams(log, n - 1);
      ProjectIsPresent(log, n - 1);
      if n - 1 !in Ids(log) {
        assert Latencies([]) == [] by { NoLatencies(); }
      }
    }
  }

  function LatenciesBelow(log: seq<PacketEvent>, n: nat): seq<nat> {
    if n == 0 then [] else LatenciesBelow(log, n - 1) + Latencies(Project(log, n - 1))
  }

  lemma {:induction false} BelowSnoc(log: seq<PacketEvent>, e: PacketEvent, n: nat)
    ensures multiset(LatenciesBelow(log + [e], n))
         == multiset(LatenciesBelow(log, n))
            + if e.streamId < n && e.recvNs.Some? then multiset{Latency(e)} else multiset{}
  {
    hide Latencies, Project, LatenciesBelow, Latency;
    BelowStep(log, n);
    BelowStep(log + [e], n);
    if n > 0 {
      BelowSnoc(log, e, n - 1);
      OneStreamSnoc(log, e, n - 1);
    }
  }

  lemma OneStreamSnoc(log: seq<PacketEvent>, e: PacketEvent, id: nat)
    ensures multiset(Latencies(Project(log + [e], id)))
         == multiset(Latencies(Project(log, id)))
            + if e.streamId == id && e.recvNs.Some? then multiset{Latency(e)} else multiset{}
  {
    hide Latencies, Project, Latency;
    ProjectSnoc(log, e, id);
    SamplesSnoc(Project(log, id), e);
    assert Project(log, id) + [] == Project(log, id);
    assert Latencies(Project(log, id)) + [] == Latencies(Project(log, id));
  }

  lemma BelowStep(log: seq<PacketEvent>, n: nat)
    ensures multiset(LatenciesBelow(log, n))
         == if n == 0 then multiset{}
            else multiset(LatenciesBelow(log, n - 1)) + multiset(Latencies(Project(log, n - 1)))
  {
  }

  lemma {:induction false} BelowNothing(n: nat)
    ensures LatenciesBelow([], n) == []
  {
    if n > 0 {
      BelowNothing(n - 1);
    }
  }

  lemma {:induction false} GlobalLatenciesArePermuted(log: seq<PacketEvent>, n: nat)
    requires StreamsBelow(log, n)
    ensures multiset(Latencies(log)) == multiset(AllLatencies(AccumulatorsOf(log), n))
  {
    hide AccumulatorsOf;
    LatenciesOfStreams(log, n);
    if log == [] {
      BelowNothing(n);
    } else {
      var init, e := log[..|log| - 1], log[|log| - 1];
      assert log == init + [e];
      GlobalLatenciesArePermuted(init, n);
      LatenciesOfStreams(init, n);
      BelowSnoc(init, e, n);
      SamplesSnoc(init, e);
    }
  }

  // ----- jitter and reordering over the streams

  /** The jitters of the streams taken one after another. */
  function JittersBelow(log: seq<PacketEvent>, n: nat): seq<nat> {
    if n == 0 then [] else JittersBelow(log, n - 1) + Jitters(Latencies(Project(log, n - 1)))
  }

  /** The reordered packets of the streams, each counted within its own stream. */
  ghost function ReorderedBelow(log: seq<PacketEvent>, n: nat): nat {
    if n == 0 then 0 else ReorderedBelow(log, n - 1) + |LateOnes(AckedSeqs(Project(log, n - 1)))|
  }

  lemma AbsentStream()
    ensures Jitters(Latencies([])) == [] && LateOnes(AckedSeqs([])) == {}
  {
    assert AckedSeqs([]) == [];
  }

  lemma {:induction false} SamplesOfStreams(log: seq<PacketEvent>, n: nat)
    ensures AllJitters(AccumulatorsOf(log), n) == JittersBelow(log, n)
    ensures AllReordered(AccumulatorsOf(log), n) == ReorderedBelow(log, n)
  {
    hide Project, Latencies, Jitters, AckedSeqs, LateOnes;
    if n > 0 {
      SamplesOfStreams(log, n - 1);
      ProjectIsPresent(log, n - 1);
      if n - 1 !in Ids(log) {
        AbsentStream();
      }
    }
  }

  /** The jitter one event adds to the whole is the one it adds to its stream. */
  lemma StreamJitterSnoc(log: seq<PacketEvent>, e: PacketEvent, id: nat)
    ensures multiset(Jitters(Latencies(Project(log + [e], id))))
         == multiset(Jitters(Latencies(Project(log, id)))) + if e.streamId == id then JitterAdded(log, e) else multiset{}
  {
    hide Latencies, Project, Latency, Jitters, Distance;
    ProjectSnoc(log, e, id);
    var before := Project(log, id);
    assert before + [] == before;
    if e.streamId == id {
      SamplesSnoc(before, e);
      if e.recvNs.Some? {
        JittersSnoc(Latencies(before), Latency(e));
        assert Jitters(Latencies(before)) + [] == Jitters(Latencies(before));
      } else {
        assert Latencies(before) + [] == Latencies(before);
      }
    }
  }

  function JitterAdded(log: seq<PacketEvent>, e: PacketEvent): multiset<nat> {
    var before := Last(Latencies(Project(log, e.streamId)));
    if e.recvNs.Some? && before.Some? then multiset{Distance(before.value, Latency(e))} else multiset{}
  }

  lemma {:induction false} JittersBelowSnoc(log: seq<PacketEvent>, e: PacketEvent, n: nat)
    ensures multiset(JittersBelow(log + [e], n))
         == multiset(JittersBelow(log, n)) + if e.streamId < n then JitterAdded(log, e) else multiset{}
  {
    hide JitterAdded, Jitters, Latencies, Project;
    if n > 0 {
      JittersBelowSnoc(log, e, n - 1);
      StreamJitterSnoc(log, e, n - 1);
    }
  }

  lemma {:induction false} NoJittersBelow(n: nat)
    ensures JittersBelow([], n) == []
  {
    if n > 0 {
      NoJittersBelow(n - 1);
    }
  }

  /** The jitters in order of arrival are those of the streams, each stream's taken from its
      own neighbouring latencies. */
  lemma {:induction false} GlobalJittersArePermuted(log: seq<PacketEvent>, n: nat)
    requires StreamsBelow(log, n)
    ensures multiset(JitterLog(log)) == multiset(JittersBelow(log, n))
  {
    if log == [] {
      NoJittersBelow(n);
    } else {
      var init, e := log[..|log| - 1], log[|log| - 1];
      assert log == init + [e];
      GlobalJittersArePermuted(init, n);
      JittersBelowSnoc(init, e, n);
      JitterLogSnoc(init, e);
    }
  }

  /** In the aggregate: every counter is the sum over the streams, losses are a percentage,
      jitter is the mean and quantiles are those of all samples in order of arrival. */
  lemma AggregateIsConsistent(log: seq<PacketEvent>, n: nat, secs: real)
    requires secs > 0.0 && StreamsBelow(log, n)
    ensures var agg := ReportOf(log, n, secs).1;
            && agg.sent == agg.acked + agg.lost == |log|
            && agg.sent == TotalOverStreams(One, log, n)
            && agg.acked == TotalOverStreams(AckedOne, log, n)
            && agg.lost == TotalOverStreams(LostOne, log, n)
            && agg.bytes == TotalOverStreams(BytesOf, log, n)
            && agg.reordered == ReorderedBelow(log, n)
            && 0.0 <= agg.lossPct <= 100.0 && IsRatio(agg.lossPct, agg.sent as real, 100.0 * agg.lost as real)
            && (agg.sent == 0 ==> agg.lossPct == 0.0)
            && IsRatio(agg.throughputBps, secs, 8.0 * agg.bytes as real) && IsRatio(agg.packetRate, secs, agg.sent as real)
            && agg.jitter == Mean(JitterLog(log))
            && agg.p50 == Quantile(Latencies(log), 50) <= agg.p95 == Quantile(Latencies(log), 95)
            && agg.p95 <= agg.p99 == Quantile(Latencies(log), 99)
  {
    hide Quantile, Total, Latencies, AllLatencies, AllJitters, AllReordered, AccumulatorsOf, Mean, PerSecond, LossPct,
         IsRatio, JitterLog, JittersBelow, ReorderedBelow;
    SentIsAckedPlusLost(log);
    TotalsAreSums(One, log, n);
    TotalsAreSums(AckedOne, log, n);
    TotalsAreSums(LostOne, log, n);
    TotalsAreSums(BytesOf, log, n);
    LossIsPercentage(Total(LostOne, log), Total(One, log));
    SamplesOfStreams(log, n);
    GlobalJittersArePermuted(log, n);
    MeanIgnoresOrder(JitterLog(log), JittersBelow(log, n));
    AggregateQuantiles(log, n);
  }

  lemma AggregateQuantiles(log: seq<PacketEvent>, n: nat)
    requires StreamsBelow(log, n)
    ensures var all := AllLatencies(AccumulatorsOf(log), n);
            && Quantile(all, 50) == Quantile(Latencies(log), 50) <= Quantile(all, 95)
            && Quantile(all, 95) == Quantile(Latencies(log), 95) <= Quantile(all, 99)
            && Quantile(all, 99) == Quantile(Latencies(log), 99)
  {
    hide Quantile, Latencies, AllLatencies, AccumulatorsOf;
    GlobalLatenciesArePermuted(log, n);
    var all := AllLatencies(AccumulatorsOf(log), n);
    QuantileIgnoresOrder(Latencies(log), all, 50);
    QuantileIgnoresOrder(Latencies(log), all, 95);
    QuantileIgnoresOrder(Latencies(log), all, 99);
    QuantileIsMonotone(all, 50, 95);
    QuantileIsMonotone(all, 95, 99);
  }

  lemma LossIsPercentage(lost: nat, sent: nat)
    requires lost <= sent
    ensures 0.0 <= LossPct(lost, sent) <= 100.0
    ensures IsRatio(LossPct(lost, sent), sent as real, 100.0 * lost as real)
    ensures sent == 0 ==> LossPct(lost, sent) == 0.0
  {
    if sent > 0 {
      assert lost as real * 100.0 <= 100.0 * sent as real;
    }
  }

  /** A stream counts no reordered packet exactly when its acknowledged packets were
      reported in nondecreasing sequence. */
  lemma ReorderedIsZeroIff(log: seq<PacketEvent>)
    ensures AccumulatorOf(log).reordered == 0 <==> Nondecreasing(AckedSeqs(log))
  {
    hide Total, Latencies, Jitters, Highest, AckedSeqs;
    InOrderIff(AckedSeqs(log));
  }

  lemma InOrderIff(seqs: seq<nat>)
    ensures |LateOnes(seqs)| == 0 <==> Nondecreasing(seqs)
  {
    if Nondecreasing(seqs) {
      assert LateOnes(seqs) == {};
    }
    if |LateOnes(seqs)| == 0 {
      assert LateOnes(seqs) == {};
      forall i, j | 0 <= i <= j < |seqs| ensures seqs[i] <= seqs[j] {
        assert j !in LateOnes(seqs);
        assert !ComesLate(seqs, j);
      }
    }
  }

  // ----- intervals

  function Counters(s: IntervalStats): Totals {
    Totals(s.sent, s.acked, s.lost, s.bytes)
  }

  function Plus(a: Totals, b: Totals): Totals {
    Totals(a.sent + b.sent, a.acked + b.acked, a.lost + b.lost, a.bytes + b.bytes)
  }

  function SumCounters(intervals: seq<IntervalStats>): Totals {
    if intervals == [] then Totals(0, 0, 0, 0)
    else Plus(SumCounters(intervals[..|intervals| - 1]), Counters(intervals[|intervals| - 1]))
  }

  lemma TotalsConcat(a: seq<PacketEvent>, b: seq<PacketEvent>)
    ensures TotalsOf(a + b) == Plus(TotalsOf(a), TotalsOf(b))
  {
    hide Total;
    TotalConcat(One, a, b);
    TotalConcat(AckedOne, a, b);
    TotalConcat(LostOne, a, b);
    TotalConcat(BytesOf, a, b);
  }

  /** `i` is the latest acknowledged event before `j` of the same stream. */
  ghost predicate Neighbours(log: seq<PacketEvent>, i: nat, j: nat) {
    && i < j < |log| && log[i].streamId == log[j].streamId && log[i].recvNs.Some? && log[j].recvNs.Some?
    && forall k :: i < k < j && log[k].streamId == log[j].streamId ==> log[k].recvNs.None?
  }

  /** `sample` is how far apart the latencies of the event `j` and its stream's latest
      acknowledged event before it are. */
  ghost predicate IsJitterAt(log: seq<PacketEvent>, j: nat, sample: nat) {
    exists i: nat :: Neighbours(log, i, j) && Apart(Latency(log[i]), Latency(log[j]), sample)
  }

  predicate Apart(a: nat, b: nat, d: nat) {
    a + d == b || b + d == a
  }

  /** The events of `segment` that have an acknowledged neighbour, `js` in order, add one
      jitter each to those of `before`. */
  ghost predicate AddsJitters(before: seq<PacketEvent>, segment: seq<PacketEvent>, added: seq<nat>, js: seq<nat>) {
    var log := before + segment;
    && JitterLog(log) == JitterLog(before) + added
    && |js| == |added|
    && (forall a, b :: 0 <= a < b < |js| ==> js[a] < js[b])
    && (forall k :: 0 <= k < |js| ==> |before| <= js[k] < |log| && IsJitterAt(log, js[k], added[k]))
    && (forall i: nat, j: nat :: Neighbours(log, i, j) && |before| <= j ==> j in js)
  }

  lemma {:induction false} LastAcked(log: seq<PacketEvent>, id: nat) returns (i: int)
    ensures i == -1 <==> Last(Latencies(Project(log, id))) == None
    ensures -1 <= i < |log|
    ensures i >= 0 ==> log[i].streamId == id && log[i].recvNs.Some?
                       && Last(Latencies(Project(log, id))) == Some(Latency(log[i]))
    ensures forall k :: i < k < |log| && log[k].streamId == id ==> log[k].recvNs.None?
  {
    hide Latency;
    if log == [] {
      i := -1;
    } else {
      var init, e := log[..|log| - 1], log[|log| - 1];
      assert log == init + [e];
      ProjectSnoc(init, e, id);
      i := LastAcked(init, id);
      if e.streamId == id {
        SamplesSnoc(Project(init, id), e);
        if e.recvNs.Some? {
          i := |init|;
        } else {
          assert Latencies(Project(init, id)) + [] == Latencies(Project(init, id));
        }
      } else {
        assert Project(init, id) + [] == Project(init, id);
      }
    }
  }

  lemma JitterOfNewcomer(log: seq<PacketEvent>, e: PacketEvent)
    ensures var before := Last(Latencies(Project(log, e.streamId)));
            if e.recvNs.Some? && before.Some? then
              IsJitterAt(log + [e], |log|, Distance(before.value, Latency(e)))
            else forall i: nat :: !Neighbours(log + [e], i, |log|)
  {
    hide Latency, Latencies, Project, Last;
    var i := LastAcked(log, e.streamId);
    var log' := log + [e];
    if e.recvNs.Some? && i >= 0 {
      assert Neighbours(log', i, |log|);
      assert log'[i] == log[i];
    }
  }

  lemma NeighboursStay(log: seq<PacketEvent>, e: PacketEvent, i: nat, j: nat)
    requires j < |log|
    ensures Neighbours(log + [e], i, j) <==> Neighbours(log, i, j)
  {
    if i < j {
      assert forall k :: i <= k <= j ==> (log + [e])[k] == log[k];
    }
  }

  lemma JitterStays(log: seq<PacketEvent>, e: PacketEvent, j: nat, sample: nat)
    requires j < |log| && IsJitterAt(log, j, sample)
    ensures IsJitterAt(log + [e], j, sample)
  {
    hide Latency;
    var i: nat :| Neighbours(log, i, j) && Apart(Latency(log[i]), Latency(log[j]), sample);
    NeighboursStay(log, e, i, j);
    assert (log + [e])[i] == log[i] && (log + [e])[j] == log[j];
  }

  lemma NeighboursAscend(log: seq<PacketEvent>, i: nat, j: nat)
    requires Neighbours(log, i, j)
    ensures i < j < |log|
  {
  }

  /** A longer log has the jitters of the shorter one, then one for each further event with
      an acknowledged neighbour. */
  lemma {:induction false} JittersGrow(before: seq<PacketEvent>, segment: seq<PacketEvent>) returns (js: seq<nat>)
    ensures AddsJitters(before, segment, NewJitters(before, before + segment), js)
  {
    hide IsJitterAt, Neighbours, Latency, Distance;
    if segment == [] {
      assert before + segment == before;
      js := [];
      forall i: nat, j: nat | Neighbours(before, i, j) ensures j < |before| {
        NeighboursAscend(before, i, j);
      }
    } else {
      var init, e := segment[..|segment| - 1], segment[|segment| - 1];
      var log := before + init;
      assert before + segment == log + [e];
      js := JittersGrow(before, init);
      var added := NewJitters(before, log);
      var last := Last(Latencies(Project(log, e.streamId)));
      JitterLogSnoc(log, e);
      JitterOfNewcomer(log, e);
      forall k | 0 <= k < |js| ensures IsJitterAt(log + [e], js[k], added[k]) {
        JitterStays(log, e, js[k], added[k]);
      }
      forall i: nat, j: nat | Neighbours(log + [e], i, j) && |before| <= j < |log| ensures j in js {
        NeighboursStay(log, e, i, j);
      }
      forall i: nat, j: nat | Neighbours(log + [e], i, j) ensures j <= |log| {
        NeighboursAscend(log + [e], i, j);
      }
      if e.recvNs.Some? && last.Some? {
        var d := Distance(last.value, Latency(e));
        assert NewJitters(before, log + [e]) == added + [d];
        js := js + [|log|];
      } else {
        assert NewJitters(before, log + [e]) == added;
      }
    }
  }

  lemma IntervalCounts(log: seq<PacketEvent>, cuts: seq<nat>, ticks: seq<nat>, measurementStart: nat,
                       interval: nat, i: nat)
    requires CutsOf(cuts, log) && |ticks| == |cuts| && i < |cuts|
    ensures Counters(IntervalAt(log, cuts, ticks, measurementStart, interval, i))
         == TotalsOf(log[CutBefore(cuts, i)..cuts[i]])
  {
    hide Total, Latencies, Mean, Quantile, NewJitters, EffectiveSpan, PerSecond, LossPct, Seconds;
    var before, segment := log[..CutBefore(cuts, i)], log[CutBefore(cuts, i)..cuts[i]];
    assert log[..cuts[i]] == before + segment;
    TotalsConcat(before, segment);
  }

  /** Each interval counts exactly the events between its two cuts and ranks exactly their
      latencies; its jitter is the mean of those that these events add to the log's; its
      losses are a percentage, its rates per time covered, its quantiles in order. */
  lemma IntervalIsConsistent(log: seq<PacketEvent>, cuts: seq<nat>, ticks: seq<nat>, measurementStart: nat,
                             interval: nat, i: nat)
    requires CutsOf(cuts, log) && |ticks| == |cuts| && i < |cuts|
    ensures var s := IntervalAt(log, cuts, ticks, measurementStart, interval, i);
            var before, segment := log[..CutBefore(cuts, i)], log[CutBefore(cuts, i)..cuts[i]];
            && s.index == i
            && Counters(s) == TotalsOf(segment)
            && s.sent == s.acked + s.lost == |segment|
            && 0.0 <= s.lossPct <= 100.0 && IsRatio(s.lossPct, s.sent as real, 100.0 * s.lost as real)
            && (s.sent == 0 ==> s.lossPct == 0.0)
            && (var nanos := CoveredNanos(ticks, measurementStart, interval, i);
                && IsRatio(s.throughputBps, nanos as real, 1_000_000_000.0 * (8.0 * s.bytes as real))
                && IsRatio(s.packetRate, nanos as real, 1_000_000_000.0 * s.sent as real))
            && (exists added, js :: AddsJitters(before, segment, added, js) && s.jitter == Mean(added))
            && s.p50 == Quantile(Latencies(segment), 50) <= s.p95 == Quantile(Latencies(segment), 95)
            && s.p95 <= s.p99 == Quantile(Latencies(segment), 99)
  {
    hide Quantile, Total, Latencies, Mean, NewJitters, PerSecond, LossPct, JitterLog, AddsJitters, TotalsOf, IsRatio,
         EffectiveSpan, Seconds, CoveredNanos;
    var before, segment := log[..CutBefore(cuts, i)], log[CutBefore(cuts, i)..cuts[i]];
    assert log[..cuts[i]] == before + segment && log[..cuts[i]][CutBefore(cuts, i)..] == segment;
    IntervalCounts(log, cuts, ticks, measurementStart, interval, i);
    SegmentCounts(segment);
    IntervalRates(log, cuts, ticks, measurementStart, interval, i);
    var js := JittersGrow(before, segment);
    QuantileIsMonotone(Latencies(segment), 50, 95);
    QuantileIsMonotone(Latencies(segment), 95, 99);
  }

  lemma SegmentCounts(segment: seq<PacketEvent>)
    ensures var t := TotalsOf(segment);
            && t.sent == t.acked + t.lost == |segment|
            && 0.0 <= LossPct(t.lost, t.sent) <= 100.0
            && IsRatio(LossPct(t.lost, t.sent), t.sent as real, 100.0 * t.lost as real)
            && (t.sent == 0 ==> LossPct(t.lost, t.sent) == 0.0)
  {
    hide Total, IsRatio, LossPct;
    SentIsAckedPlusLost(segment);
    LossIsPercentage(Total(LostOne, segment), Total(One, segment));
  }

  /** The time that the interval `i` covers: between the ticks, the nominal interval if that
      is none, and at least a microsecond. */
  function CoveredNanos(ticks: seq<nat>, measurementStart: nat, interval: nat, i: nat): nat
    requires i < |ticks|
  {
    var since := if i == 0 then measurementStart else ticks[i - 1];
    var span := if since < ticks[i] then ticks[i] - since else interval;
    if span < 1000 then 1000 else span
  }

  lemma SpanIsCovered(ticks: seq<nat>, measurementStart: nat, interval: nat, i: nat)
    requires i < |ticks|
    ensures var span := EffectiveSpan(Last(ticks[..i]), measurementStart, interval, ticks[i]);
            CoveredNanos(ticks, measurementStart, interval, i) == if span < 1000 then 1000 else span
  {
    assert ticks[..0] == [];
  }

  lemma IntervalRates(log: seq<PacketEvent>, cuts: seq<nat>, ticks: seq<nat>, measurementStart: nat,
                      interval: nat, i: nat)
    requires CutsOf(cuts, log) && |ticks| == |cuts| && i < |cuts|
    ensures var s := IntervalAt(log, cuts, ticks, measurementStart, interval, i);
            var nanos := CoveredNanos(ticks, measurementStart, interval, i);
            && IsRatio(s.throughputBps, nanos as real, 1_000_000_000.0 * (8.0 * s.bytes as real))
            && IsRatio(s.packetRate, nanos as real, 1_000_000_000.0 * s.sent as real)
            && LossPct(s.lost, s.sent) == s.lossPct
  {
    hide Quantile, Total, Latencies, Mean, NewJitters, PerSecond, LossPct, Seconds, TotalsOf, IsRatio, CoveredNanos,
         EffectiveSpan;
    var s := IntervalAt(log, cuts, ticks, measurementStart, interval, i);
    SpanIsCovered(ticks, measurementStart, interval, i);
    var span := EffectiveSpan(Last(ticks[..i]), measurementStart, interval, ticks[i]);
    RateOverNanos(8.0 * s.bytes as real, span);
    RateOverNanos(s.sent as real, span);
  }

  /** An interval in figures: its rates are bits and packets per second of the time from the
      tick before, or from the start of the measurement; it ends with its tick and begins
      that time before. */
  lemma IntervalFigures(log: seq<PacketEvent>, cuts: seq<nat>, ticks: seq<nat>, measurementStart: nat,
                        interval: nat, i: nat)
    requires CutsOf(cuts, log) && |ticks| == |cuts| && i < |cuts|
    ensures var s := IntervalAt(log, cuts, ticks, measurementStart, interval, i);
            var since := if i == 0 then measurementStart else ticks[i - 1];
            var span := if since < ticks[i] then ticks[i] - since else interval;
            var nanos := if span < 1000 then 1000 else span;
            && s.throughputBps * nanos as real == 1_000_000_000.0 * (8.0 * s.bytes as real)
            && s.packetRate * nanos as real == 1_000_000_000.0 * s.sent as real
            && s.lossPct * s.sent as real == 100.0 * s.lost as real
            && (var elapsed := if measurementStart < ticks[i] then ticks[i] - measurementStart else 0;
                && s.endMs == elapsed / 1_000_000
                && s.startMs == (if span < elapsed then elapsed - span else 0) / 1_000_000)
  {
    hide IntervalAt, TotalsOf, Quantile, Mean, Latencies, JitterLog, AddsJitters;
    IntervalIsConsistent(log, cuts, ticks, measurementStart, interval, i);
    IntervalEnds(log, cuts, ticks, measurementStart, interval, i);
  }

  lemma IntervalEnds(log: seq<PacketEvent>, cuts: seq<nat>, ticks: seq<nat>, measurementStart: nat,
                     interval: nat, i: nat)
    requires CutsOf(cuts, log) && |ticks| == |cuts| && i < |cuts|
    ensures var s := IntervalAt(log, cuts, ticks, measurementStart, interval, i);
            var since := if i == 0 then measurementStart else ticks[i - 1];
            var span := if since < ticks[i] then ticks[i] - since else interval;
            var elapsed := if measurementStart < ticks[i] then ticks[i] - measurementStart else 0;
            && s.endMs == elapsed / 1_000_000
            && s.startMs == (if span < elapsed then elapsed - span else 0) / 1_000_000
  {
    hide Quantile, Total, Latencies, Mean, NewJitters, PerSecond, LossPct, Seconds, TotalsOf, IsRatio;
    assert ticks[..0] == [];
  }

  /** The rates and the loss of the aggregate, and a row's rate, in figures: per second of
      the configured duration, and that at least a microsecond. */
  lemma ReportFigures(log: seq<PacketEvent>, n: nat, duration: nat, row: StreamRow)
    requires StreamsBelow(log, n) && row in ReportOf(log, n, Seconds(duration)).0
    ensures var agg, nanos := ReportOf(log, n, Seconds(duration)).1, if duration < 1000 then 1000 else duration;
            && row.throughputBps * nanos as real == 1_000_000_000.0 * (8.0 * row.bytes as real)
            && agg.throughputBps * nanos as real == 1_000_000_000.0 * (8.0 * agg.bytes as real)
            && agg.packetRate * nanos as real == 1_000_000_000.0 * agg.sent as real
            && agg.lossPct * agg.sent as real == 100.0 * agg.lost as real
  {
    hide ReportOf, Seconds, PerSecond, LossPct;
    var agg, secs := ReportOf(log, n, Seconds(duration)).1, Seconds(duration);
    AggregateRatios(log, n, secs);
    RowRatio(log, n, secs, row);
    RateOverNanos(8.0 * agg.bytes as real, duration);
    RateOverNanos(agg.sent as real, duration);
    RateOverNanos(8.0 * row.bytes as real, duration);
  }

  lemma AggregateRatios(log: seq<PacketEvent>, n: nat, secs: real)
    requires secs > 0.0 && StreamsBelow(log, n)
    ensures var agg := ReportOf(log, n, secs).1;
            && agg.throughputBps == PerSecond(8.0 * agg.bytes as real, secs)
            && agg.packetRate == PerSecond(agg.sent as real, secs)
            && IsRatio(agg.lossPct, agg.sent as real, 100.0 * agg.lost as real)
  {
    hide Quantile, Mean, PerSecond, LossPct, IsRatio, AccumulatorsOf, AllLatencies, AllJitters, AllReordered, Total, Rows;
    SegmentCounts(log);
  }

  lemma RowRatio(log: seq<PacketEvent>, n: nat, secs: real, row: StreamRow)
    requires secs > 0.0 && row in ReportOf(log, n, secs).0
    ensures row.throughputBps == PerSecond(8.0 * row.bytes as real, secs)
  {
    hide Quantile, Mean, PerSecond, AccumulatorsOf, Aggregate, TotalsOf, Rows;
    var streams := AccumulatorsOf(log);
    var rows := Rows(streams, n, secs);
    RowsListStreams(streams, n, secs);
    var k :| 0 <= k < |rows| && rows[k] == row;
    assert IsRow(streams, n, secs, rows[k]);
  }

  /** A rate per second, over nanoseconds. */
  lemma RateOverNanos(amount: real, span: nat)
    ensures IsRatio(PerSecond(amount, Seconds(span)), (if span < 1000 then 1000 else span) as real, 1_000_000_000.0 * amount)
  {
    hide PerSecond;
    var nanos := (if span < 1000 then 1000 else span) as real;
    var secs := Seconds(span);
    assert nanos == secs * 1_000_000_000.0;
    Rescale(PerSecond(amount, secs), secs, 1_000_000_000.0, amount);
  }

  lemma Rescale(rate: real, secs: real, scale: real, amount: real)
    requires rate * secs == amount
    ensures rate * (secs * scale) == scale * amount
  {
    assert rate * (secs * scale) == (rate * secs) * scale;
  }

  /** Summed over all intervals, every counter gives the totals at the last tick, so the
      run's totals less the tail after it. */
  lemma {:induction false} IntervalsTelescope(intervals: seq<IntervalStats>, log: seq<PacketEvent>, cuts: seq<nat>,
                                              ticks: seq<nat>, measurementStart: nat, interval: nat)
    requires IntervalsMatch(intervals, log, cuts, ticks, measurementStart, interval)
    ensures CutBefore(cuts, |cuts|) <= |log|
    ensures SumCounters(intervals) == TotalsOf(log[..CutBefore(cuts, |cuts|)])
    ensures TotalsOf(log) == Plus(SumCounters(intervals), TotalsOf(log[CutBefore(cuts, |cuts|)..]))
  {
    hide IntervalAt, TotalsOf;
    var n := |intervals|;
    if n == 0 {
      assert TotalsOf(log[..0]) == Totals(0, 0, 0, 0) by { NoTotals(); }
    } else {
      FewerIntervals(intervals, log, cuts, ticks, measurementStart, interval);
      IntervalsTelescope(intervals[..n - 1], log, cuts[..n - 1], ticks[..n - 1], measurementStart, interval);
      IntervalCounts(log, cuts, ticks, measurementStart, interval, n - 1);
      var before := CutBefore(cuts, n - 1);
      assert log[..cuts[n - 1]] == log[..before] + log[before..cuts[n - 1]];
      TotalsConcat(log[..before], log[before..cuts[n - 1]]);
    }
    var last := CutBefore(cuts, |cuts|);
    assert log == log[..last] + log[last..];
    TotalsConcat(log[..last], log[last..]);
  }

  lemma NoTotals()
    ensures TotalsOf([]) == Totals(0, 0, 0, 0)
  {
  }

  lemma FewerIntervals(intervals: seq<IntervalStats>, log: seq<PacketEvent>, cuts: seq<nat>, ticks: seq<nat>,
                       measurementStart: nat, interval: nat)
    requires IntervalsMatch(intervals, log, cuts, ticks, measurementStart, interval) && intervals != []
    ensures var n := |intervals| - 1;
            IntervalsMatch(intervals[..n], log, cuts[..n], ticks[..n], measurementStart, interval)
  {
    hide BuildInterval;
    var n := |intervals| - 1;
    forall i | 0 <= i < n
      ensures IntervalAt(log, cuts[..n], ticks[..n], measurementStart, interval, i)
           == IntervalAt(log, cuts, ticks, measurementStart, interval, i)
    {
      assert ticks[..n][..i] == ticks[..i];
    }
  }

  /** The first interval starts at zero, and an interval starts where the one before it
      ended, exactly unless two ticks fall on the same instant late enough for the nominal
      interval to show in whole milliseconds. */
  lemma IntervalsTile(log: seq<PacketEvent>, cuts: seq<nat>, ticks: seq<nat>, measurementStart: nat,
                      interval: nat, i: nat)
    requires CutsOf(cuts, log) && |ticks| == |cuts| && i < |cuts|
    requires Nondecreasing(ticks) && measurementStart <= ticks[0]
    ensures var s := IntervalAt(log, cuts, ticks, measurementStart, interval, i);
            && s.startMs <= s.endMs == (ticks[i] - measurementStart) / MILLISECOND
            && (i == 0 ==> s.startMs == 0)
            && (i > 0 ==>
                  var previous := IntervalAt(log, cuts, ticks, measurementStart, interval, i - 1);
                  var elapsed := ticks[i] - measurementStart;
                  s.startMs == previous.endMs
                  <==> ticks[i - 1] < ticks[i] || elapsed < MILLISECOND || elapsed % MILLISECOND >= interval)
  {
    hide Quantile, Total, Latencies, Mean, NewJitters, LossPct, TotalsOf, PerSecond, Seconds;
    assert ticks[0] <= ticks[i];
    var elapsed := ticks[i] - measurementStart;
    if i > 0 {
      assert ticks[0] <= ticks[i - 1] <= ticks[i];
      assert Last(ticks[..i]) == Some(ticks[i - 1]);
      FloorAfterMinus(elapsed, interval);
    } else {
      assert Last(ticks[..0]) == None;
    }
    FloorIsMonotone(Minus(elapsed, EffectiveSpan(Last(ticks[..i]), measurementStart, interval, ticks[i])), elapsed);
  }

  /** A tick that fires late can be followed at once by the next one, which is on time. If
      the clock is too coarse to tell them apart, here five milliseconds into a measurement
      with intervals of five milliseconds, then the second interval claims the five
      milliseconds that the first one covered. */
  lemma SameInstantOverlaps()
    ensures var interval := 5 * MILLISECOND;
            var a := IntervalAt([], [0, 0], [interval, interval], 0, interval, 0);
            var b := IntervalAt([], [0, 0], [interval, interval], 0, interval, 1);
            a.startMs == b.startMs == 0 && a.endMs == b.endMs == 5
  {
    hide Quantile, Latencies, Mean, NewJitters, LossPct, TotalsOf, PerSecond, Seconds;
    var interval := 5 * MILLISECOND;
    assert [interval, interval][..1] == [interval] && [interval, interval][..0] == [];
  }

  lemma FloorIsMonotone(a: nat, b: nat)
    requires a <= b
    ensures a / MILLISECOND <= b / MILLISECOND
  {
  }

  lemma FloorAfterMinus(d: nat, interval: nat)
    ensures Minus(d, interval) / MILLISECOND == d / MILLISECOND
       <==> interval == 0 || d < MILLISECOND || d % MILLISECOND >= interval
  {
  }
}
