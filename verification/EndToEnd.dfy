/** From packets to the report: what the clients' logs mean for the rows computed from them. */
module EndToEnd {
  import opened Base
  import opened Stream
  import opened Pacing
  import opened Ranks
  import opened Report
  import opened ReportLemmas
  import opened Reducer
  import opened ReportTheorems
  import opened TcpSession
  import opened TcpInvariant
  import opened TcpClientSteps
  import opened TcpTheorems
  import opened TcpTraces
  import opened StopAndWait
  import UdpClient
  import QuicClient

  // ----- counting the measured part of a log

  predicate IsWarmup(e: PacketEvent) {
    !e.measured
  }

  ghost predicate Distinct(log: seq<PacketEvent>) {
    forall i, j :: 0 <= i < j < |log| ==> log[i].seqNo != log[j].seqNo
  }

  ghost predicate SeqsWithin(log: seq<PacketEvent>, lo: int, hi: int) {
    forall i :: 0 <= i < |log| ==> lo < log[i].seqNo <= hi
  }

  lemma SeqsNonempty(log: seq<PacketEvent>, lo: nat, hi: nat)
    requires SeqsWithin(log, lo, hi) && log != []
    ensures lo < hi
  {
    assert lo < log[0].seqNo <= hi;
  }

  lemma {:induction false} DistinctBound(log: seq<PacketEvent>, lo: nat, hi: nat)
    requires Distinct(log) && SeqsWithin(log, lo, hi)
    ensures |log| <= Max(0, hi - lo)
  {
    if log != [] {
      SeqsNonempty(log, lo, hi);
      if exists i :: 0 <= i < |log| && log[i].seqNo == hi {
        var i :| 0 <= i < |log| && log[i].seqNo == hi;
        DistinctBound(log[..i] + log[i + 1..], lo, hi - 1);
      } else {
        DistinctBound(log, lo, hi - 1);
      }
    }
  }

  lemma {:induction false} FilterKeepsDistinct(keep: PacketEvent -> bool, log: seq<PacketEvent>)
    requires Distinct(log)
    ensures Distinct(Filter(keep, log))
    ensures forall i :: 0 <= i < |Filter(keep, log)| ==> Filter(keep, log)[i] in log && keep(Filter(keep, log)[i])
  {
    if log != [] {
      FilterKeepsDistinct(keep, log[..|log| - 1]);
    }
  }

  lemma {:induction false} FilterSplits(log: seq<PacketEvent>)
    ensures |Filter(IsMeasured, log)| + |Filter(IsWarmup, log)| == |log|
  {
    if log != [] {
      FilterSplits(log[..|log| - 1]);
    }
  }

  /** All packets above `lo` and up to `hi`, each once, with the same fate. */
  ghost predicate IsPart(log: seq<PacketEvent>, lo: nat, hi: nat, warm: nat, payload: nat, acked: bool) {
    && lo <= hi && |log| == hi - lo && Distinct(log) && SeqsWithin(log, lo, hi)
    && forall i :: 0 <= i < |log| ==>
         (log[i].measured <==> log[i].seqNo > warm) && log[i].bytes == payload && log[i].recvNs.Some? == acked
  }

  lemma FinishedParts(log: seq<PacketEvent>, id: U32, payload: nat, n: nat, acked: nat, warm: nat)
    requires FinishedLog(log, id, payload, n, acked, warm)
    ensures acked <= |log| == n && warm <= n
    ensures IsPart(log[..acked], 0, acked, warm, payload, true)
    ensures IsPart(log[acked..], acked, n, warm, payload, false)
  {
  }

  /** Distinct packets filling a range, measured above the mark `warm`: the measured ones
      are those above both the range's foot and the mark. */
  lemma MeasuredCount(log: seq<PacketEvent>, lo: nat, hi: nat, warm: nat, payload: nat, acked: bool)
    requires IsPart(log, lo, hi, warm, payload, acked)
    ensures var m := Filter(IsMeasured, log);
            && |m| == Max(0, hi - Max(lo, warm))
            && forall i :: 0 <= i < |m| ==> m[i].bytes == payload && m[i].recvNs.Some? == acked
  {
    hide Filter;
    FilterKeepsDistinct(IsMeasured, log);
    FilterKeepsDistinct(IsWarmup, log);
    DistinctBound(Filter(IsMeasured, log), Max(lo, warm), hi);
    DistinctBound(Filter(IsWarmup, log), lo, Min(hi, warm));
    FilterSplits(log);
  }

  lemma {:induction false} UniformTotal(weight: PacketEvent -> nat, log: seq<PacketEvent>, each: nat)
    requires forall i :: 0 <= i < |log| ==> weight(log[i]) == each
    ensures Total(weight, log) == |log| * each
  {
    if log != [] {
      UniformTotal(weight, log[..|log| - 1], each);
      assert |log| * each == (|log| - 1) * each + each;
    }
  }

  /** The acknowledged part and the lost part of a finished log, each cut down to what is
      measured. */
  lemma MeasuredParts(log: seq<PacketEvent>, id: U32, payload: nat, n: nat, acked: nat, warm: nat)
    requires FinishedLog(log, id, payload, n, acked, warm)
    ensures var a, b := Filter(IsMeasured, log[..acked]), Filter(IsMeasured, log[acked..]);
            && Filter(IsMeasured, log) == a + b
            && |a| == Max(0, acked - warm) && |b| == n - Max(acked, warm)
            && (forall i :: 0 <= i < |a| ==> a[i].recvNs.Some? && a[i].bytes == payload)
            && (forall i :: 0 <= i < |b| ==> b[i].recvNs.None? && b[i].bytes == payload)
  {
    hide Filter, IsPart, FinishedLog;
    FinishedParts(log, id, payload, n, acked, warm);
    var front, back := log[..acked], log[acked..];
    assert log == front + back;
    FilterConcat(IsMeasured, front, back);
    MeasuredCount(front, 0, acked, warm, payload, true);
    MeasuredCount(back, acked, n, warm, payload, false);
  }

  /** The closed form of a report row: of `n` packets, `acked` acknowledged in order and the
      first `warm` not measured. */
  lemma ClosedFormRow(log: seq<PacketEvent>, id: U32, payload: nat, n: nat, acked: nat, warm: nat)
    requires FinishedLog(log, id, payload, n, acked, warm)
    ensures var s := AccumulatorOf(Filter(IsMeasured, log));
            && s.sent == n - warm
            && s.acked == Max(0, acked - warm)
            && s.lost == n - Max(acked, warm)
            && s.bytes == s.sent * payload
            && s.reordered == 0
  {
    hide Filter, Total, LateOnes, Latencies, AckedSeqs, Jitters, Highest;
    MeasuredParts(log, id, payload, n, acked, warm);
    var m, a, b := Filter(IsMeasured, log), Filter(IsMeasured, log[..acked]), Filter(IsMeasured, log[acked..]);
    TotalConcat(AckedOne, a, b);
    TotalConcat(LostOne, a, b);
    UniformTotal(AckedOne, a, 1);
    UniformTotal(AckedOne, b, 0);
    UniformTotal(LostOne, a, 0);
    UniformTotal(LostOne, b, 1);
    UniformTotal(BytesOf, m, payload);
    SentIsAckedPlusLost(m);
    FinishedIsInOrder(log, id, payload, n, acked, warm);
  }

  // ----- order

  /** Acknowledged packets appear in the log in sequence. */
  ghost predicate InSequence(log: seq<PacketEvent>) {
    forall i, j :: 0 <= i < j < |log| && log[i].recvNs.Some? && log[j].recvNs.Some? ==> log[i].seqNo <= log[j].seqNo
  }

  ghost predicate IsAckedSeq(log: seq<PacketEvent>, s: nat) {
    exists i :: 0 <= i < |log| && log[i].recvNs.Some? && log[i].seqNo == s
  }

  lemma {:induction false} InSequenceAcks(log: seq<PacketEvent>)
    requires InSequence(log)
    ensures var r := AckedSeqs(Filter(IsMeasured, log));
            && Nondecreasing(r)
            && forall k :: 0 <= k < |r| ==> IsAckedSeq(log, r[k])
  {
    hide AckedSeqs;
    if log == [] {
      assert AckedSeqs([]) == [] by { NoAcks(); }
    } else {
      var init, e := log[..|log| - 1], log[|log| - 1];
      InSequenceAcks(init);
      var r := AckedSeqs(Filter(IsMeasured, init));
      forall k | 0 <= k < |r|
        ensures IsAckedSeq(log, r[k])
        ensures e.recvNs.Some? ==> r[k] <= e.seqNo
      {
        assert IsAckedSeq(init, r[k]);
        var i :| 0 <= i < |init| && init[i].recvNs.Some? && init[i].seqNo == r[k];
        assert log[i] == init[i];
      }
      if e.measured {
        SamplesSnoc(Filter(IsMeasured, init), e);
        assert r + [] == r;
      } else {
        assert Filter(IsMeasured, init) + [] == Filter(IsMeasured, init);
      }
    }
  }

  lemma NoAcks()
    ensures AckedSeqs([]) == []
  {
  }

  /** A finished TCP or QUIC stream counts no reordered packet. */
  lemma FinishedIsInOrder(log: seq<PacketEvent>, id: U32, payload: nat, n: nat, acked: nat, warm: nat)
    requires FinishedLog(log, id, payload, n, acked, warm)
    ensures AccumulatorOf(Filter(IsMeasured, log)).reordered == 0
  {
    hide AccumulatorOf, AckedSeqs, Filter;
    InSequenceAcks(log);
    ReorderedIsZeroIff(Filter(IsMeasured, log));
  }

  /** Nor does a stop-and-wait stream, whichever of its packets were answered. */
  lemma SequentialIsInOrder(log: seq<PacketEvent>, id: U32, payload: nat, warm: nat)
    requires SequentialLog(log, id, payload, warm)
    ensures AccumulatorOf(Filter(IsMeasured, log)).reordered == 0
  {
    hide AccumulatorOf, AckedSeqs, Filter;
    InSequenceAcks(log);
    ReorderedIsZeroIff(Filter(IsMeasured, log));
  }

  // ----- the rows of the report

  /** The measured latencies are the differences of the stamps: none is clipped at zero. */
  ghost predicate NothingClipped(log: seq<PacketEvent>) {
    forall e :: e in log && e.recvNs.Some? ==> Latency(e) == e.recvNs.value - e.sendNs
  }

  /** However the engine interleaves streams and ticks, a stream whose log is `log` has an
      accumulator, and so a row, exactly if the log has a measured event, and it holds what
      that log determines. */
  lemma StreamReport(items: seq<Item>, id: nat, log: seq<PacketEvent>)
    requires Project(Events(items), id) == log
    ensures var streams, measured := AccumulatorsOf(MeasuredLog(items)), Filter(IsMeasured, log);
            && Project(MeasuredLog(items), id) == measured
            && (id in streams <==> AccumulatorOf(measured).sent > 0)
            && (id in streams ==> streams[id] == AccumulatorOf(measured))
  {
    hide Events, Filter, Project, AccumulatorOf;
    ProjectOfMeasured(Events(items), id);
    ProjectIsPresent(MeasuredLog(items), id);
    SentIsLength(Project(MeasuredLog(items), id));
  }

  /** The row of a stream with a finished log, such as a TCP or a QUIC stream leaves, follows
      from three numbers: packets sent, packets acknowledged, packets before the warm-up. */
  lemma FinishedReport(items: seq<Item>, id: U32, log: seq<PacketEvent>, payload: nat, n: nat, acked: nat, warm: nat)
    requires Project(Events(items), id) == log && FinishedLog(log, id, payload, n, acked, warm)
    ensures var streams := AccumulatorsOf(MeasuredLog(items));
            && (id in streams <==> n > warm)
            && (id in streams ==>
                  && streams[id].sent == n - warm
                  && streams[id].acked == Max(0, acked - warm)
                  && streams[id].lost == n - Max(acked, warm)
                  && streams[id].bytes == (n - warm) * payload
                  && streams[id].reordered == 0)
  {
    hide Events, Filter, Project, AccumulatorOf, AccumulatorsOf, MeasuredLog, FinishedLog;
    StreamReport(items, id, log);
    ClosedFormRow(log, id, payload, n, acked, warm);
  }

  /** The row of a stream whose client waits for each answer before the next packet: all
      packets after the warm-up, as many acknowledged as were answered, the rest lost. */
  lemma SequentialReport(items: seq<Item>, id: U32, log: seq<PacketEvent>, payload: nat, warm: nat)
    requires Project(Events(items), id) == log && SequentialLog(log, id, payload, warm) && warm <= |log|
    ensures var streams := AccumulatorsOf(MeasuredLog(items));
            && (id in streams <==> |log| > warm)
            && (id in streams ==>
                  && streams[id].sent == |log| - warm
                  && streams[id].acked == Total(AckedOne, log[warm..])
                  && streams[id].lost == streams[id].sent - streams[id].acked
                  && streams[id].bytes == (|log| - warm) * payload
                  && streams[id].reordered == 0)
    ensures NothingClipped(Project(MeasuredLog(items), id))
  {
    hide Events, Filter, Project, AccumulatorsOf, MeasuredLog, Total, LateOnes, Latencies, AckedSeqs, Jitters, Highest;
    StreamReport(items, id, log);
    MeasuredTail(log, id, payload, warm);
    var measured := log[warm..];
    SentIsAckedPlusLost(measured);
    UniformTotal(BytesOf, measured, payload);
    SequentialIsInOrder(log, id, payload, warm);
    assert NothingClipped(measured);
  }

  /** What a sequential log has measured is its part after the warm-up. */
  lemma MeasuredTail(log: seq<PacketEvent>, id: U32, payload: nat, warm: nat)
    requires SequentialLog(log, id, payload, warm) && warm <= |log|
    ensures Filter(IsMeasured, log) == log[warm..]
  {
    hide Filter;
    var front, back := log[..warm], log[warm..];
    assert log == front + back;
    FilterConcat(IsMeasured, front, back);
    FilterElements(IsMeasured, front);
    FilterElements(IsMeasured, back);
    assert [] + back == back;
  }

  /** A UDP stream's row, from what the network delivered in each round: a packet counts as
      acknowledged exactly if its round read its echo. */
  lemma UdpReport(items: seq<Item>, run: Run, net: UdpClient.UdpNetwork, strays: seq<Bytes>, log: seq<PacketEvent>,
                  warm: nat)
    requires Project(Events(items), run.streamId) == log && warm <= |log|
    requires SequentialLog(log, run.streamId, run.payload, warm) && UdpClient.Credits(run, net, strays, log)
    ensures var streams, id := AccumulatorsOf(MeasuredLog(items)), run.streamId;
            && (id in streams <==> |log| > warm)
            && (id in streams ==>
                  && streams[id].sent == |log| - warm
                  && streams[id].acked == UdpCredited(run, net, strays, SendTimes(log), warm)
                  && streams[id].lost == streams[id].sent - streams[id].acked
                  && streams[id].bytes == streams[id].sent * run.payload
                  && streams[id].reordered == 0)
  {
    hide Events, Project, AccumulatorsOf, MeasuredLog, SequentialLog, UdpClient.Credits, SendTimes;
    SequentialReport(items, run.streamId, log, run.payload, warm);
    CountCredited(run, net, strays, log, warm);
  }

  /** The rounds from number `warm` on whose answer names their own packet. */
  function UdpCredited(run: Run, net: UdpClient.UdpNetwork, strays: seq<Bytes>, stamps: seq<nat>, warm: nat): nat
    requires |stamps| < TWO_64
    decreases |stamps|
  {
    if |stamps| <= warm then 0
    else
      UdpCredited(run, net, strays, stamps[..|stamps| - 1], warm)
      + if UdpClient.AnswerOf(run, net, strays, stamps) == Answered(|stamps|) then 1 else 0
  }

  lemma {:induction false} CountCredited(run: Run, net: UdpClient.UdpNetwork, strays: seq<Bytes>,
                                         log: seq<PacketEvent>, warm: nat)
    requires warm <= |log| && UdpClient.Credits(run, net, strays, log)
    ensures Total(AckedOne, log[warm..]) == UdpCredited(run, net, strays, SendTimes(log), warm)
    decreases |log|
  {
    hide UdpClient.AnswerOf;
    if |log| > warm {
      var init, e := log[..|log| - 1], log[|log| - 1];
      assert log[warm..] == init[warm..] + [e];
      assert SendTimes(init) == SendTimes(log)[..|log| - 1];
      forall i | 0 <= i < |init|
        ensures UdpClient.CreditsRound(run, net, strays, SendTimes(init)[..i + 1], init[i])
      {
        assert SendTimes(init)[..i + 1] == SendTimes(log)[..i + 1];
        assert UdpClient.CreditsRound(run, net, strays, SendTimes(log)[..i + 1], log[i]);
      }
      CountCredited(run, net, strays, init, warm);
      TotalSnoc(AckedOne, init[warm..], e);
      assert SendTimes(log)[..|log|] == SendTimes(log);
      assert UdpClient.CreditsRound(run, net, strays, SendTimes(log)[..|log|], log[|log| - 1]);
    }
  }

  /** A QUIC stream's row: acknowledged are the measured rounds that read their own answer;
      unless a round was faked, these are the rounds answered together with all before them. */
  lemma QuicReport(items: seq<Item>, run: Run, net: QuicClient.QuicNetwork, log: seq<PacketEvent>, warm: nat)
    requires Project(Events(items), run.streamId) == log && warm <= |log|
    requires SequentialLog(log, run.streamId, run.payload, warm) && QuicClient.Credits(run, net, log)
    ensures var streams, id := AccumulatorsOf(MeasuredLog(items)), run.streamId;
            var through := QuicClient.CountThrough(net, |log|);
            && (id in streams <==> |log| > warm)
            && (id in streams ==>
                  && streams[id].sent == |log| - warm
                  && streams[id].acked == QuicCredited(run, net, SendTimes(log), warm)
                  && streams[id].lost == streams[id].sent - streams[id].acked
                  && streams[id].bytes == streams[id].sent * run.payload
                  && streams[id].reordered == 0
                  && (QuicClient.NeverFaked(run, net, log) ==>
                        && streams[id].acked == Max(0, through - warm)
                        && streams[id].lost == |log| - Max(through, warm)))
  {
    hide Events, Project, AccumulatorsOf, MeasuredLog, SequentialLog, QuicClient.CreditsRound, SendTimes, FinishedLog,
         QuicClient.CountThrough, QuicClient.NeverFaked;
    SequentialReport(items, run.streamId, log, run.payload, warm);
    CountQuicCredited(run, net, log, warm);
    if QuicClient.NeverFaked(run, net, log) {
      QuicClient.CreditsArePrefix(run, net, log, warm);
      FinishedReport(items, run.streamId, log, run.payload, |log|, QuicClient.CountThrough(net, |log|), warm);
    }
  }

  /** The rounds from number `warm` on whose answer names their own packet. */
  function QuicCredited(run: Run, net: QuicClient.QuicNetwork, stamps: seq<nat>, warm: nat): nat
    requires |stamps| < TWO_64
    decreases |stamps|
  {
    if |stamps| <= warm then 0
    else
      QuicCredited(run, net, stamps[..|stamps| - 1], warm)
      + if QuicClient.AnswerOf(run, net, stamps) == Answered(|stamps|) then 1 else 0
  }

  lemma {:induction false} CountQuicCredited(run: Run, net: QuicClient.QuicNetwork, log: seq<PacketEvent>, warm: nat)
    requires warm <= |log| && QuicClient.Credits(run, net, log)
    ensures Total(AckedOne, log[warm..]) == QuicCredited(run, net, SendTimes(log), warm)
    decreases |log|
  {
    hide QuicClient.AnswerOf;
    if |log| > warm {
      var init, e := log[..|log| - 1], log[|log| - 1];
      assert log[warm..] == init[warm..] + [e];
      assert SendTimes(init) == SendTimes(log)[..|log| - 1];
      forall i | 0 <= i < |init| ensures QuicClient.CreditsRound(run, net, SendTimes(init)[..i + 1], init[i]) {
        assert SendTimes(init)[..i + 1] == SendTimes(log)[..i + 1];
        assert QuicClient.CreditsRound(run, net, SendTimes(log)[..i + 1], log[i]);
      }
      CountQuicCredited(run, net, init, warm);
      TotalSnoc(AckedOne, init[warm..], e);
      assert SendTimes(log)[..|log|] == SendTimes(log);
      assert QuicClient.CreditsRound(run, net, SendTimes(log)[..|log|], log[|log| - 1]);
    }
  }

  /** A run of TCP streams that all ended normally, with stream ids 0, 1, ..., and an
      interleaving of their logs, and of ticks, that the engine consumed. */
  ghost predicate TcpBenchmark(runs: seq<Run>, schedules: seq<seq<Act>>, items: seq<Item>) {
    && |runs| == |schedules|
    && StreamsBelow(Events(items), |runs|)
    && forall i :: 0 <= i < |runs| ==>
         && runs[i].streamId == i
         && Exec(runs[i], schedules[i]).client.pc.Done?
         && Project(Events(items), i) == Exec(runs[i], schedules[i]).client.events
  }

  /** The packets of stream `i` that were not yet being measured. */
  function Warmups(run: Run, s: State): nat {
    WarmCount(s.hist.inserts, run.WarmupUntil())
  }

  /** Whatever the network, the server, the acknowledgement readers and the engine's own
      scheduling do, the report has a row for a TCP stream exactly if it sent a measured
      packet, and the row follows from three counts: packets sent, acknowledgements taken,
      packets sent before the warm-up was over. No measured latency is clipped. */
  lemma TcpReport(runs: seq<Run>, schedules: seq<seq<Act>>, items: seq<Item>, i: nat)
    requires TcpBenchmark(runs, schedules, items) && i < |runs|
    ensures var s := Exec(runs[i], schedules[i]);
            var streams := AccumulatorsOf(MeasuredLog(items));
            var n, acked, warm := s.client.seqNo, Acked(s), Warmups(runs[i], s);
            && (i in streams <==> n > warm)
            && (i in streams ==>
                  && streams[i].sent == n - warm
                  && streams[i].acked == Max(0, acked - warm)
                  && streams[i].lost == n - Max(acked, warm)
                  && streams[i].bytes == (n - warm) * runs[i].payload
                  && streams[i].reordered == 0)
    ensures NothingClipped(Project(MeasuredLog(items), i))
  {
    hide Exec, Events, Filter, Project, AccumulatorsOf, FinishedLog, Causal, Inv, MeasuredLog, NothingClipped;
    var s := Exec(runs[i], schedules[i]);
    FinishedRun(runs[i], schedules[i]);
    FinishedReport(items, i, s.client.events, runs[i].payload, s.client.seqNo, Acked(s), Warmups(runs[i], s));
    StreamReport(items, i, s.client.events);
    LogIsCausal(runs[i], schedules[i]);
    CausalLatencies(s.client.events);
  }

  /** The counters of a finished stream's row: of `n` packets, `acked` acknowledged and the
      first `warm` not measured. */
  function ClosedCounters(n: nat, acked: nat, warm: nat, payload: nat): Totals
    requires acked <= n && warm <= n
  {
    Totals(n - warm, Max(0, acked - warm), n - Max(acked, warm), (n - warm) * payload)
  }

  /** The rows of a TCP run: one for each stream that sent a measured packet, in ascending
      order, with the counters in closed form. */
  lemma TcpRows(runs: seq<Run>, schedules: seq<seq<Act>>, items: seq<Item>, secs: real)
    requires TcpBenchmark(runs, schedules, items) && secs > 0.0
    ensures var rows := ReportOf(MeasuredLog(items), |runs|, secs).0;
            && (forall i, j :: 0 <= i < j < |rows| ==> rows[i].streamId < rows[j].streamId)
            && (forall k :: 0 <= k < |rows| ==> IsTcpRow(runs, schedules, rows[k]))
            && (forall i :: 0 <= i < |runs| ==>
                  (HasRow(rows, i) <==> SentMeasured(runs[i], Exec(runs[i], schedules[i]))))
  {
    hide Exec, AccumulatorsOf, MeasuredLog, TcpBenchmark, Aggregate, TcpRow, SentMeasured, Rows, HasRow, RowOf;
    var streams := AccumulatorsOf(MeasuredLog(items));
    var rows := Rows(streams, |runs|, secs);
    assert ReportOf(MeasuredLog(items), |runs|, secs).0 == rows;
    RowsListStreams(streams, |runs|, secs);
    SameCount(runs, schedules, items);
    forall k | 0 <= k < |rows| ensures IsTcpRow(runs, schedules, rows[k]) {
      assert IsRow(streams, |runs|, secs, rows[k]);
      TcpRowOf(runs, schedules, items, secs, rows[k].streamId);
    }
    forall i | 0 <= i < |runs|
      ensures HasRow(rows, i) <==> SentMeasured(runs[i], Exec(runs[i], schedules[i]))
    {
      TcpRowOf(runs, schedules, items, secs, i);
      RowIsPresent(rows, streams, |runs|, secs, i);
    }
  }

  lemma RowIsPresent(rows: seq<StreamRow>, streams: map<nat, StreamAccumulator>, n: nat, secs: real, i: nat)
    requires secs > 0.0 && ListsStreams(rows, streams, n, secs) && i < n
    ensures HasRow(rows, i) <==> i in streams
  {
    hide RowOf;
    if k :| 0 <= k < |rows| && rows[k].streamId == i {
      assert IsRow(streams, n, secs, rows[k]);
    }
  }

  /** A row of a stream of the run, with the counters its end state gives in closed form. */
  ghost predicate IsTcpRow(runs: seq<Run>, schedules: seq<seq<Act>>, row: StreamRow) {
    var i := row.streamId;
    i < |runs| == |schedules| && TcpRow(runs[i], Exec(runs[i], schedules[i]), row)
  }

  lemma SameCount(runs: seq<Run>, schedules: seq<seq<Act>>, items: seq<Item>)
    requires TcpBenchmark(runs, schedules, items)
    ensures |runs| == |schedules|
  {
  }

  ghost predicate SentMeasured(run: Run, s: State) {
    s.client.seqNo > Warmups(run, s)
  }

  ghost predicate TcpRow(run: Run, s: State, row: StreamRow) {
    var n, acked, warm := s.client.seqNo, Acked(s), Warmups(run, s);
    && 0 <= acked <= n && warm <= n
    && Totals(row.sent, row.acked, row.lost, row.bytes) == ClosedCounters(n, acked, warm, run.payload)
    && row.reordered == 0
  }

  lemma TcpRowOf(runs: seq<Run>, schedules: seq<seq<Act>>, items: seq<Item>, secs: real, i: nat)
    requires TcpBenchmark(runs, schedules, items) && secs > 0.0 && i < |runs|
    ensures var streams := AccumulatorsOf(MeasuredLog(items));
            && (i in streams <==> SentMeasured(runs[i], Exec(runs[i], schedules[i])))
            && (i in streams ==> TcpRow(runs[i], Exec(runs[i], schedules[i]), RowOf(i, streams[i], secs)))
  {
    hide Exec, AccumulatorsOf, MeasuredLog, Quantile, Mean, PerSecond, Inv, FinishedLog, Warmups;
    TcpReport(runs, schedules, items, i);
    TcpCounts(runs, schedules, items, i);
  }

  lemma TcpCounts(runs: seq<Run>, schedules: seq<seq<Act>>, items: seq<Item>, i: nat)
    requires TcpBenchmark(runs, schedules, items) && i < |runs|
    ensures var s := Exec(runs[i], schedules[i]);
            0 <= Acked(s) <= s.client.seqNo && Warmups(runs[i], s) <= s.client.seqNo
  {
    hide Exec, Inv;
    FinishedRun(runs[i], schedules[i]);
  }

  /** The closed-form counters of the first `k` streams of a run, added up. */
  ghost function CountersBelow(runs: seq<Run>, schedules: seq<seq<Act>>, items: seq<Item>, k: nat): Totals
    requires TcpBenchmark(runs, schedules, items) && k <= |runs|
  {
    if k == 0 then Totals(0, 0, 0, 0)
    else
      var s := Exec(runs[k - 1], schedules[k - 1]);
      TcpCounts(runs, schedules, items, k - 1);
      Plus(CountersBelow(runs, schedules, items, k - 1),
           ClosedCounters(s.client.seqNo, Acked(s), Warmups(runs[k - 1], s), runs[k - 1].payload))
  }

  function OverStreams(log: seq<PacketEvent>, n: nat): Totals {
    Totals(TotalOverStreams(One, log, n), TotalOverStreams(AckedOne, log, n),
           TotalOverStreams(LostOne, log, n), TotalOverStreams(BytesOf, log, n))
  }

  lemma {:induction false} CountersAddUp(runs: seq<Run>, schedules: seq<seq<Act>>, items: seq<Item>, k: nat)
    requires TcpBenchmark(runs, schedules, items) && k <= |runs|
    ensures OverStreams(MeasuredLog(items), k) == CountersBelow(runs, schedules, items, k)
    ensures ReorderedBelow(MeasuredLog(items), k) == 0
  {
    hide Exec, MeasuredLog, Project, Total, AckedSeqs, LateOnes, TcpBenchmark, Warmups, ClosedCounters;
    if k > 0 {
      CountersAddUp(runs, schedules, items, k - 1);
      StreamCounters(runs, schedules, items, k - 1);
    }
  }

  lemma StreamCounters(runs: seq<Run>, schedules: seq<seq<Act>>, items: seq<Item>, i: nat)
    requires TcpBenchmark(runs, schedules, items) && i < |runs|
    ensures var s, log := Exec(runs[i], schedules[i]), Project(MeasuredLog(items), i);
            && 0 <= Acked(s) <= s.client.seqNo && Warmups(runs[i], s) <= s.client.seqNo
            && TotalsOf(log) == ClosedCounters(s.client.seqNo, Acked(s), Warmups(runs[i], s), runs[i].payload)
            && |LateOnes(AckedSeqs(log))| == 0
  {
    hide Exec, Events, Filter, Project, FinishedLog, Inv, MeasuredLog, AccumulatorsOf, Total, LateOnes, AckedSeqs,
         Latencies, Jitters, Highest;
    var s := Exec(runs[i], schedules[i]);
    TcpCounts(runs, schedules, items, i);
    FinishedRun(runs[i], schedules[i]);
    StreamReport(items, i, s.client.events);
    ClosedFormRow(s.client.events, runs[i].streamId, runs[i].payload, s.client.seqNo, Acked(s), Warmups(runs[i], s));
  }

  /** The aggregate of a TCP run: its counters are the closed forms of the streams added up,
      and no packet counts as reordered. */
  lemma TcpAggregate(runs: seq<Run>, schedules: seq<seq<Act>>, items: seq<Item>, secs: real)
    requires TcpBenchmark(runs, schedules, items) && secs > 0.0
    ensures var agg := ReportOf(MeasuredLog(items), |runs|, secs).1;
            && Totals(agg.sent, agg.acked, agg.lost, agg.bytes) == CountersBelow(runs, schedules, items, |runs|)
            && agg.reordered == 0
  {
    hide Exec, MeasuredLog, ReportOf, CountersBelow, TotalOverStreams, ReorderedBelow, Mean, Quantile, JitterLog,
         Latencies;
    MeasuredBelow(runs, schedules, items);
    AggregateIsConsistent(MeasuredLog(items), |runs|, secs);
    CountersAddUp(runs, schedules, items, |runs|);
  }

  lemma MeasuredBelow(runs: seq<Run>, schedules: seq<seq<Act>>, items: seq<Item>)
    requires TcpBenchmark(runs, schedules, items)
    ensures StreamsBelow(MeasuredLog(items), |runs|)
  {
    hide Exec, Events, Filter;
    FilteredStreamsBelow(Events(items), |runs|);
  }

  /** Whatever acknowledgements of a stream were stamped when one of its rounds began, the
      report counts as acknowledged: only packets whose acknowledgement came later are lost. */
  lemma TcpReportTakesAcks(runs: seq<Run>, schedules: seq<seq<Act>>, items: seq<Item>, i: nat,
                           before: seq<Act>, more: seq<Act>)
    requires TcpBenchmark(runs, schedules, items) && i < |runs|
    requires schedules[i] == before + more && Exec(runs[i], before).client.pc.Top?
    ensures var streams := AccumulatorsOf(MeasuredLog(items));
            var s, r := Exec(runs[i], schedules[i]), |Exec(runs[i], before).net.recvs|;
            var n, warm := s.client.seqNo, Warmups(runs[i], s);
            i in streams ==>
              && streams[i].acked >= Max(0, r - warm)
              && streams[i].lost <= n - Max(r, warm)
  {
    hide Exec, AccumulatorsOf, MeasuredLog, Warmups, Acked;
    TcpReport(runs, schedules, items, i);
    AcksAreTaken(runs[i], before, more);
  }

  lemma SentIsLength(log: seq<PacketEvent>)
    ensures AccumulatorOf(log).sent == |log|
  {
    hide Total, LateOnes, Latencies, AckedSeqs, Jitters, Highest;
    SentIsAckedPlusLost(log);
  }

  lemma CausalLatencies(log: seq<PacketEvent>)
    requires Causal(log)
    ensures NothingClipped(Filter(IsMeasured, log))
  {
    hide Filter;
    FilterElements(IsMeasured, log);
  }

  /** All paced streams of a run together keep to the rate resolved for it: the packets after
      each stream's first, stamped by time `t`, fit the rate over the time since the first
      schedule began, give or take a nanosecond per packet. */
  lemma RunKeepsRate(runs: seq<Run>, stamps: seq<seq<nat>>, counts: seq<nat>, payload: U32, rate: nat,
                     from: nat, t: nat, most: nat)
    requires 1 <= |runs| == |stamps| == |counts| <= rate && from <= t
    requires forall i :: 0 <= i < |runs| ==>
               && runs[i].payload == payload && runs[i].firstSlot >= from
               && runs[i].rateBps == PerStreamRate(Some(rate), |runs|)
               && OnSchedule(runs[i], stamps[i]) && StampedBy(stamps[i], counts[i], t)
               && counts[i] <= most + 1
    ensures LaterPackets(counts) * PacedBits(payload, PerStreamRate(Some(rate), |runs|).value)
            <= rate * ((t - from) + most)
  {
    hide PacedBits, LaterPackets;
    var per := PerStreamRate(Some(rate), |runs|).value;
    var senders := seq(|runs|, i requires 0 <= i < |runs| => Sender(stamps[i], runs[i].firstSlot));
    assert forall i :: 0 <= i < |runs| ==> SentInTime(senders[i], counts[i], payload, per, t, from);
    RunEnvelope(senders, counts, payload, rate, t, from, most);
  }

  /** TCP streams are on schedule, whatever their schedules of acts. */
  lemma TcpRunKeepsRate(runs: seq<Run>, schedules: seq<seq<Act>>, counts: seq<nat>, payload: U32, rate: nat,
                        from: nat, t: nat, most: nat)
    requires 1 <= |runs| == |schedules| == |counts| <= rate && from <= t
    requires forall i :: 0 <= i < |runs| ==>
               && runs[i].payload == payload && runs[i].firstSlot >= from
               && runs[i].rateBps == PerStreamRate(Some(rate), |runs|)
               && StampedBy(Exec(runs[i], schedules[i]).hist.stamps, counts[i], t)
               && counts[i] <= most + 1
    ensures LaterPackets(counts) * PacedBits(payload, PerStreamRate(Some(rate), |runs|).value)
            <= rate * ((t - from) + most)
  {
    hide Exec, PacedBits, LaterPackets, OnSchedule;
    var stamps := seq(|runs|, i requires 0 <= i < |runs| => Exec(runs[i], schedules[i]).hist.stamps);
    forall i | 0 <= i < |runs| ensures OnSchedule(runs[i], stamps[i]) {
      TcpOnSchedule(runs[i], schedules[i]);
    }
    RunKeepsRate(runs, stamps, counts, payload, rate, from, t, most);
  }

  lemma TcpOnSchedule(run: Run, acts: seq<Act>)
    ensures OnSchedule(run, Exec(run, acts).hist.stamps)
  {
    hide Exec;
    SendsAndDrainsAreBounded(run, acts);
    StampsAscend(run, acts);
  }

  lemma StampsAscend(run: Run, acts: seq<Act>)
    ensures Nondecreasing(Exec(run, acts).hist.stamps)
  {
    hide Exec;
    ExecInv(run, acts);
  }

  /** So are the streams of the UDP and QUIC clients, whose logs are on schedule. */
  lemma StopAndWaitRunKeepsRate(runs: seq<Run>, logs: seq<seq<PacketEvent>>, counts: seq<nat>, payload: U32, rate: nat,
                                from: nat, t: nat, most: nat)
    requires 1 <= |runs| == |logs| == |counts| <= rate && from <= t
    requires forall i :: 0 <= i < |runs| ==>
               && runs[i].payload == payload && runs[i].firstSlot >= from
               && runs[i].rateBps == PerStreamRate(Some(rate), |runs|)
               && OnSchedule(runs[i], SendTimes(logs[i])) && StampedBy(SendTimes(logs[i]), counts[i], t)
               && counts[i] <= most + 1
    ensures LaterPackets(counts) * PacedBits(payload, PerStreamRate(Some(rate), |runs|).value)
            <= rate * ((t - from) + most)
  {
    hide PacedBits, LaterPackets, OnSchedule, SendTimes;
    var stamps := seq(|runs|, i requires 0 <= i < |runs| => SendTimes(logs[i]));
    RunKeepsRate(runs, stamps, counts, payload, rate, from, t, most);
  }

  /** The first `k` packets were stamped by time `t`. */
  ghost predicate StampedBy(stamps: seq<nat>, k: nat, t: nat) {
    k <= |stamps| && (k > 0 ==> stamps[k - 1] <= t)
  }
}
