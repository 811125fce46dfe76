/** How the report functions grow with the log, and how they split over streams. */
module ReportLemmas {
  import opened Base
  import opened Stream
  import opened Report

  // ----- one more event

  lemma Snoc(log: seq<PacketEvent>, e: PacketEvent)
    ensures (log + [e])[..|log + [e]| - 1] == log && (log + [e])[|log + [e]| - 1] == e
  {
  }

  lemma TotalSnoc(weight: PacketEvent -> nat, log: seq<PacketEvent>, e: PacketEvent)
    ensures Total(weight, log + [e]) == Total(weight, log) + weight(e)
  {
    Snoc(log, e);
  }

  lemma ProjectSnoc(log: seq<PacketEvent>, e: PacketEvent, id: nat)
    ensures Project(log + [e], id) == Project(log, id) + if e.streamId == id then [e] else []
  {
    Snoc(log, e);
  }

  lemma SamplesSnoc(log: seq<PacketEvent>, e: PacketEvent)
    ensures Latencies(log + [e]) == Latencies(log) + if e.recvNs.Some? then [Latency(e)] else []
    ensures AckedSeqs(log + [e]) == AckedSeqs(log) + if e.recvNs.Some? then [e.seqNo] else []
  {
    Snoc(log, e);
  }

  lemma JittersSnoc(latencies: seq<nat>, l: nat)
    ensures Jitters(latencies + [l])
         == Jitters(latencies) + if latencies == [] then [] else [Distance(latencies[|latencies| - 1], l)]
  {
  }

  lemma {:induction false} HighestIsMax(values: seq<nat>)
    ensures forall i :: 0 <= i < |values| ==> values[i] <= Highest(values)
    ensures values != [] ==> exists i :: 0 <= i < |values| && values[i] == Highest(values)
    ensures values == [] ==> Highest(values) == 0
  {
    if values != [] {
      var n := |values| - 1;
      HighestIsMax(values[..n]);
      assert forall i :: 0 <= i < n ==> values[i] == values[..n][i];
      if Highest(values) != values[n] {
        var i :| 0 <= i < n && values[..n][i] == Highest(values[..n]);
        assert values[i] == Highest(values);
      }
    }
  }

  lemma LatenessStays(seqs: seq<nat>, s: nat, i: nat)
    requires i < |seqs|
    ensures ComesLate(seqs + [s], i) <==> ComesLate(seqs, i)
  {
    var longer := seqs + [s];
    if ComesLate(seqs, i) {
      var j :| 0 <= j < i && seqs[j] > seqs[i];
      assert longer[j] > longer[i];
    }
    if ComesLate(longer, i) {
      var j :| 0 <= j < i && longer[j] > longer[i];
      assert seqs[j] > seqs[i];
    }
  }

  lemma NewcomerIsLate(seqs: seq<nat>, s: nat)
    ensures ComesLate(seqs + [s], |seqs|) <==> Highest(seqs) > s
  {
    var longer := seqs + [s];
    HighestIsMax(seqs);
    if Highest(seqs) > s {
      var j :| 0 <= j < |seqs| && seqs[j] == Highest(seqs);
      assert longer[j] > longer[|seqs|];
    }
    if ComesLate(longer, |seqs|) {
      var j :| 0 <= j < |seqs| && longer[j] > longer[|seqs|];
      assert seqs[j] > s;
    }
  }

  lemma LateSnoc(seqs: seq<nat>, s: nat)
    ensures |LateOnes(seqs + [s])| == |LateOnes(seqs)| + if Highest(seqs) > s then 1 else 0
    ensures Highest(seqs + [s]) == Max(Highest(seqs), s)
  {
    hide ComesLate;
    var longer := seqs + [s];
    assert longer[..|seqs|] == seqs;
    forall i | 0 <= i < |seqs| ensures ComesLate(longer, i) <==> ComesLate(seqs, i) {
      LatenessStays(seqs, s, i);
    }
    NewcomerIsLate(seqs, s);
    assert LateOnes(longer) == LateOnes(seqs) + if Highest(seqs) > s then {|seqs|} else {};
    assert |seqs| !in LateOnes(seqs);
  }

  // ----- streams and the whole

  lemma {:induction false} ProjectIsPresent(log: seq<PacketEvent>, id: nat)
    ensures id in Ids(log) <==> Project(log, id) != []
    ensures forall e :: e in Project(log, id) ==> e.streamId == id && e in log
  {
    if log != [] {
      var init, e := log[..|log| - 1], log[|log| - 1];
      assert log == init + [e];
      ProjectIsPresent(init, id);
    }
  }

  /** Filtering by measurement and by stream commute. */
  lemma {:induction false} ProjectOfMeasured(log: seq<PacketEvent>, id: nat)
    ensures Project(Filter(IsMeasured, log), id) == Filter(IsMeasured, Project(log, id))
  {
    if log != [] {
      var init, e := log[..|log| - 1], log[|log| - 1];
      ProjectOfMeasured(init, id);
      if e.measured {
        ProjectSnoc(Filter(IsMeasured, init), e, id);
      } else {
        assert Filter(IsMeasured, init) + [] == Filter(IsMeasured, init);
      }
      if e.streamId == id {
        FilterSnoc(IsMeasured, Project(init, id), e);
      } else {
        assert Project(init, id) + [] == Project(init, id);
      }
    }
  }

  /** The total of a weight over the streams below `n`. */
  function TotalOverStreams(weight: PacketEvent -> nat, log: seq<PacketEvent>, n: nat): nat {
    if n == 0 then 0 else TotalOverStreams(weight, log, n - 1) + Total(weight, Project(log, n - 1))
  }

  lemma {:induction false} OverStreamsSnoc(weight: PacketEvent -> nat, log: seq<PacketEvent>, e: PacketEvent, n: nat)
    ensures TotalOverStreams(weight, log + [e], n)
         == TotalOverStreams(weight, log, n) + if e.streamId < n then weight(e) else 0
  {
    if n > 0 {
      OverStreamsSnoc(weight, log, e, n - 1);
      ProjectSnoc(log, e, n - 1);
      if e.streamId == n - 1 {
        TotalSnoc(weight, Project(log, n - 1), e);
      } else {
        assert Project(log, n - 1) + [] == Project(log, n - 1);
      }
    }
  }

  lemma {:induction false} OverStreamsNothing(weight: PacketEvent -> nat, n: nat)
    ensures TotalOverStreams(weight, [], n) == 0
  {
    if n > 0 {
      OverStreamsNothing(weight, n - 1);
    }
  }

  /** Every counter of the whole log is the sum of the same counter over its streams. */
  lemma {:induction false} TotalsAreSums(weight: PacketEvent -> nat, log: seq<PacketEvent>, n: nat)
    requires forall i :: 0 <= i < |log| ==> log[i].streamId < n
    ensures Total(weight, log) == TotalOverStreams(weight, log, n)
  {
    if log == [] {
      OverStreamsNothing(weight, n);
    } else {
      var init, e := log[..|log| - 1], log[|log| - 1];
      assert log == init + [e];
      TotalsAreSums(weight, init, n);
      OverStreamsSnoc(weight, init, e, n);
    }
  }

  /** Everything sent is either acknowledged or lost. */
  lemma {:induction false} SentIsAckedPlusLost(log: seq<PacketEvent>)
    ensures Total(One, log) == Total(AckedOne, log) + Total(LostOne, log) == |log|
    ensures |Latencies(log)| == |AckedSeqs(log)| == Total(AckedOne, log)
  {
    if log != [] {
      SentIsAckedPlusLost(log[..|log| - 1]);
    }
  }

  lemma {:induction false} TotalConcat(weight: PacketEvent -> nat, a: seq<PacketEvent>, b: seq<PacketEvent>)
    ensures Total(weight, a + b) == Total(weight, a) + Total(weight, b)
  {
    if b == [] {
      assert a + b == a;
    } else {
      var init, e := b[..|b| - 1], b[|b| - 1];
      assert a + b == (a + init) + [e] && b == init + [e];
      TotalConcat(weight, a, init);
      TotalSnoc(weight, a + init, e);
      TotalSnoc(weight, init, e);
    }
  }
}
