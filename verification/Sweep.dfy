/** A sweep: one benchmark per point of a grid, ranked by score. */
module Sweep {
  import opened Base
  import opened Pacing
  import opened Report

  datatype Objective = Throughput | MaxEfficiency | Balanced

  datatype GridPoint = GridPoint(streams: U16, rate: RateMode)

  /** A finished benchmark and its place in the order the grid was walked. */
  datatype SweepRun = SweepRun(point: GridPoint, position: nat, aggregate: AggregateRow)

  /** The score of a run, with throughput in Gbit/s and the 99th percentile in milliseconds. */
  function ScoreRun(objective: Objective, agg: AggregateRow): real
    requires agg.lossPct >= 0.0
  {
    var gbps := agg.throughputBps / 1_000_000_000.0;
    var p99 := agg.p99 as real / 1_000_000.0;
    match objective
    case Throughput => gbps
    case MaxEfficiency => gbps / (1.0 + p99 + agg.lossPct)
    case Balanced => gbps - (p99 * 0.01 + agg.lossPct * 0.05)
  }

  ghost predicate Scorable(runs: seq<SweepRun>) {
    forall i :: 0 <= i < |runs| ==> runs[i].aggregate.lossPct >= 0.0
  }

  /** The scores in figures. By throughput: the Gbit/s. By efficiency: the score times one plus
      the 99th percentile in milliseconds plus the loss in percent is the Gbit/s. Balanced:
      one Gbit/s outweighs exactly 100 ms of latency, or 20 percent of loss. */
  lemma ScoreInFigures(agg: AggregateRow)
    requires agg.lossPct >= 0.0
    ensures 1_000_000_000.0 * ScoreRun(Throughput, agg) == agg.throughputBps
    ensures 1_000_000_000.0 * (ScoreRun(MaxEfficiency, agg) * (1.0 + agg.p99 as real / 1_000_000.0 + agg.lossPct))
         == agg.throughputBps
    ensures 100.0 * ScoreRun(Balanced, agg)
         == 100.0 * (agg.throughputBps / 1_000_000_000.0) - agg.p99 as real / 1_000_000.0 - 5.0 * agg.lossPct
  {
    var gbps, d := agg.throughputBps / 1_000_000_000.0, 1.0 + agg.p99 as real / 1_000_000.0 + agg.lossPct;
    QuotientTimes(gbps, d);
  }

  lemma QuotientTimes(a: real, d: real)
    requires d > 0.0
    ensures a / d * d == a
  {
  }

  /** At equal throughput the balanced ranking trades five milliseconds for a percent of loss. */
  lemma BalancedTrades(a: AggregateRow, b: AggregateRow)
    requires a.lossPct >= 0.0 && b.lossPct >= 0.0 && a.throughputBps == b.throughputBps
    ensures ScoreRun(Balanced, a) >= ScoreRun(Balanced, b)
       <==> a.p99 as real / 1_000_000.0 + 5.0 * a.lossPct <= b.p99 as real / 1_000_000.0 + 5.0 * b.lossPct
  {
    ScoreInFigures(a);
    ScoreInFigures(b);
  }

  /** More latency or more loss never improves a score, whatever the objective. */
  lemma ScorePenalizes(objective: Objective, better: AggregateRow, worse: AggregateRow)
    requires 0.0 <= better.lossPct <= worse.lossPct && better.p99 <= worse.p99
    requires better.throughputBps == worse.throughputBps >= 0.0
    ensures ScoreRun(objective, better) >= ScoreRun(objective, worse)
  {
    if objective.MaxEfficiency? {
      var gbps := better.throughputBps / 1_000_000_000.0;
      DivisionShrinks(gbps, 1.0 + better.p99 as real / 1_000_000.0 + better.lossPct,
                      1.0 + worse.p99 as real / 1_000_000.0 + worse.lossPct);
    }
  }

  /** At equal latency and loss, more throughput always improves a score. */
  lemma ScoreRewards(objective: Objective, better: AggregateRow, worse: AggregateRow)
    requires better.lossPct == worse.lossPct >= 0.0 && better.p99 == worse.p99
    requires better.throughputBps > worse.throughputBps
    ensures ScoreRun(objective, better) > ScoreRun(objective, worse)
  {
    if objective.MaxEfficiency? {
      var d := 1.0 + better.p99 as real / 1_000_000.0 + better.lossPct;
      DivisionGrows(better.throughputBps / 1_000_000_000.0, worse.throughputBps / 1_000_000_000.0, d);
    }
  }

  lemma DivisionGrows(a: real, b: real, d: real)
    requires a > b && d > 0.0
    ensures a / d > b / d
  {
    var x, y := a / d, b / d;
    assert x * d == a && y * d == b;
    assert (x - y) * d > 0.0;
  }

  lemma DivisionShrinks(a: real, b: real, c: real)
    requires a >= 0.0 && 0.0 < b <= c
    ensures a / b >= a / c
  {
    var x, y := a / b, a / c;
    assert y * c == x * b;
    assert x * b <= x * c;
    assert 0.0 <= (x - y) * c;
  }

  // ----- the grid

  function GridRow(streams: U16, rates: seq<RateMode>): seq<GridPoint> {
    seq(|rates|, i requires 0 <= i < |rates| => GridPoint(streams, rates[i]))
  }

  /** Every combination, rates varying fastest. */
  function Grid(streams: seq<U16>, rates: seq<RateMode>): seq<GridPoint> {
    if streams == [] then []
    else Grid(streams[..|streams| - 1], rates) + GridRow(streams[|streams| - 1], rates)
  }

  lemma {:induction false} GridSize(streams: seq<U16>, rates: seq<RateMode>)
    ensures |Grid(streams, rates)| == |streams| * |rates|
  {
    if streams != [] {
      GridSize(streams[..|streams| - 1], rates);
      assert |streams| * |rates| == (|streams| - 1) * |rates| + |rates|;
    }
  }

  /** The grid is walked stream count by stream count, and each with all rates in turn. */
  lemma {:induction false} GridAt(streams: seq<U16>, rates: seq<RateMode>, i: nat, j: nat)
    requires i < |streams| && j < |rates|
    ensures i * |rates| + j < |Grid(streams, rates)| == |streams| * |rates|
    ensures Grid(streams, rates)[i * |rates| + j] == GridPoint(streams[i], rates[j])
  {
    var n := |streams| - 1;
    GridSize(streams, rates);
    GridSize(streams[..n], rates);
    MulMonotone(i + 1, |streams|, |rates|);
    assert (i + 1) * |rates| == i * |rates| + |rates| && |streams| * |rates| == n * |rates| + |rates|;
    if i < n {
      GridAt(streams[..n], rates, i, j);
    } else {
      assert Grid(streams, rates)[n * |rates| + j] == GridRow(streams[n], rates)[j];
    }
  }

  function Points(runs: seq<SweepRun>): seq<GridPoint> {
    seq(|runs|, i requires 0 <= i < |runs| => runs[i].point)
  }

  // ----- ranking

  /** `a` ranks before `b`: it scores more, or the same and was run earlier. */
  predicate RanksBefore(objective: Objective, a: SweepRun, b: SweepRun)
    requires a.aggregate.lossPct >= 0.0 && b.aggregate.lossPct >= 0.0
  {
    var x, y := ScoreRun(objective, a.aggregate), ScoreRun(objective, b.aggregate);
    x > y || (x == y && a.position < b.position)
  }

  ghost predicate Ranked(objective: Objective, runs: seq<SweepRun>)
    requires Scorable(runs)
  {
    forall i, j :: 0 <= i < j < |runs| ==> RanksBefore(objective, runs[i], runs[j])
  }

  function InsertRun(objective: Objective, run: SweepRun, sorted: seq<SweepRun>): (r: seq<SweepRun>)
    requires Scorable(sorted) && run.aggregate.lossPct >= 0.0
    ensures Scorable(r) && |r| == |sorted| + 1
  {
    if sorted == [] || ScoreRun(objective, run.aggregate) >= ScoreRun(objective, sorted[0].aggregate) then
      [run] + sorted
    else
      [sorted[0]] + InsertRun(objective, run, sorted[1..])
  }

  /** The stable sort by descending score. */
  function SortRuns(objective: Objective, runs: seq<SweepRun>): (r: seq<SweepRun>)
    requires Scorable(runs)
    ensures Scorable(r) && |r| == |runs|
  {
    if runs == [] then [] else InsertRun(objective, runs[0], SortRuns(objective, runs[1..]))
  }

  /** What ranks below the head of a ranked list, or is a new run that does not reach it,
      still ranks below it after the insertion. */
  lemma HeadStaysFirst(objective: Objective, run: SweepRun, sorted: seq<SweepRun>, tail: seq<SweepRun>)
    requires Scorable(sorted) && Scorable(tail) && run.aggregate.lossPct >= 0.0 && Ranked(objective, sorted)
    requires sorted != [] && RanksBefore(objective, sorted[0], run)
    requires multiset(tail) == multiset(sorted[1..]) + multiset{run}
    ensures forall j :: 0 <= j < |tail| ==> RanksBefore(objective, sorted[0], tail[j])
  {
    hide ScoreRun, RanksBefore;
    forall j | 0 <= j < |tail| ensures RanksBefore(objective, sorted[0], tail[j]) {
      assert tail[j] in multiset(tail);
      if tail[j] != run {
        assert tail[j] in multiset(sorted[1..]);
        var k :| 0 <= k < |sorted[1..]| && sorted[1..][k] == tail[j];
        assert RanksBefore(objective, sorted[0], sorted[k + 1]);
      }
    }
  }

  /** A new run at least as good as the head goes before everything. */
  lemma NewHeadRanksFirst(objective: Objective, run: SweepRun, sorted: seq<SweepRun>)
    requires Scorable(sorted) && run.aggregate.lossPct >= 0.0 && Ranked(objective, sorted)
    requires forall i :: 0 <= i < |sorted| ==> run.position < sorted[i].position
    requires sorted != [] ==> ScoreRun(objective, run.aggregate) >= ScoreRun(objective, sorted[0].aggregate)
    ensures forall j :: 0 <= j < |sorted| ==> RanksBefore(objective, run, sorted[j])
  {
    hide ScoreRun;
    forall j | 0 <= j < |sorted| ensures RanksBefore(objective, run, sorted[j]) {
      if j > 0 {
        assert RanksBefore(objective, sorted[0], sorted[j]);
      }
    }
  }

  /** Inserting adds the new run and nothing else. */
  lemma {:induction false} InsertAdds(objective: Objective, run: SweepRun, sorted: seq<SweepRun>)
    requires Scorable(sorted) && run.aggregate.lossPct >= 0.0
    ensures multiset(InsertRun(objective, run, sorted)) == multiset(sorted) + multiset{run}
    ensures multiset(Points(InsertRun(objective, run, sorted))) == multiset(Points(sorted)) + multiset{run.point}
  {
    hide ScoreRun, Points;
    if sorted == [] || ScoreRun(objective, run.aggregate) >= ScoreRun(objective, sorted[0].aggregate) {
      ConsPoints(run, sorted);
    } else {
      assert sorted == [sorted[0]] + sorted[1..];
      InsertAdds(objective, run, sorted[1..]);
      ConsPoints(sorted[0], InsertRun(objective, run, sorted[1..]));
      ConsPoints(sorted[0], sorted[1..]);
    }
  }

  lemma {:induction false} InsertRanks(objective: Objective, run: SweepRun, sorted: seq<SweepRun>)
    requires Scorable(sorted) && run.aggregate.lossPct >= 0.0 && Ranked(objective, sorted)
    requires forall i :: 0 <= i < |sorted| ==> run.position < sorted[i].position
    ensures Ranked(objective, InsertRun(objective, run, sorted))
  {
    hide ScoreRun, RanksBefore;
    if sorted == [] || ScoreRun(objective, run.aggregate) >= ScoreRun(objective, sorted[0].aggregate) {
      NewHeadRanksFirst(objective, run, sorted);
      ConsRanks(objective, run, sorted);
    } else {
      var tail := InsertRun(objective, run, sorted[1..]);
      InsertRanks(objective, run, sorted[1..]);
      InsertAdds(objective, run, sorted[1..]);
      HigherScoreRanksFirst(objective, sorted[0], run);
      HeadStaysFirst(objective, run, sorted, tail);
      ConsRanks(objective, sorted[0], tail);
    }
  }

  lemma HigherScoreRanksFirst(objective: Objective, a: SweepRun, b: SweepRun)
    requires a.aggregate.lossPct >= 0.0 && b.aggregate.lossPct >= 0.0
    requires ScoreRun(objective, a.aggregate) > ScoreRun(objective, b.aggregate)
    ensures RanksBefore(objective, a, b)
  {
  }

  lemma ConsPoints(head: SweepRun, tail: seq<SweepRun>)
    ensures multiset(Points([head] + tail)) == multiset(Points(tail)) + multiset{head.point}
  {
    assert Points([head] + tail) == [head.point] + Points(tail);
  }

  lemma ConsRanks(objective: Objective, head: SweepRun, tail: seq<SweepRun>)
    requires Scorable(tail) && head.aggregate.lossPct >= 0.0 && Ranked(objective, tail)
    requires forall j :: 0 <= j < |tail| ==> RanksBefore(objective, head, tail[j])
    ensures Scorable([head] + tail) && Ranked(objective, [head] + tail)
  {
    hide ScoreRun, RanksBefore;
    var r := [head] + tail;
    forall i, j | 0 <= i < j < |r| ensures RanksBefore(objective, r[i], r[j]) {
      assert r[j] == tail[j - 1];
      if i > 0 {
        assert r[i] == tail[i - 1];
      }
    }
  }

  /** The order in which the grid was walked. */
  ghost predicate InOrder(runs: seq<SweepRun>) {
    forall i, j :: 0 <= i < j < |runs| ==> runs[i].position < runs[j].position
  }

  /** Sorting keeps every run and leaves them in strict order: by score, ties as run. */
  lemma {:induction false} SortRanks(objective: Objective, runs: seq<SweepRun>)
    requires Scorable(runs) && InOrder(runs)
    ensures Ranked(objective, SortRuns(objective, runs))
    ensures multiset(SortRuns(objective, runs)) == multiset(runs)
    ensures multiset(Points(SortRuns(objective, runs))) == multiset(Points(runs))
  {
    hide ScoreRun, InsertRun, RanksBefore;
    if runs != [] {
      ConsPoints(runs[0], runs[1..]);
      assert runs == [runs[0]] + runs[1..];
      SortRanks(objective, runs[1..]);
      var tail := SortRuns(objective, runs[1..]);
      forall i | 0 <= i < |tail| ensures runs[0].position < tail[i].position {
        assert tail[i] in multiset(runs[1..]);
        var k :| 0 <= k < |runs[1..]| && runs[1..][k] == tail[i];
        assert runs[1..][k] == runs[k + 1];
      }
      InsertRanks(objective, runs[0], tail);
      InsertAdds(objective, runs[0], tail);
    }
  }

  /** Whatever is left out of the top scores no more than anything kept. */
  lemma TopIsBest(objective: Objective, runs: seq<SweepRun>, top: nat, kept: nat, left: nat)
    requires Scorable(runs) && InOrder(runs)
    requires kept < Min(top, |runs|) <= left < |runs|
    ensures var sorted := SortRuns(objective, runs);
            ScoreRun(objective, sorted[kept].aggregate) >= ScoreRun(objective, sorted[left].aggregate)
  {
    hide ScoreRun, SortRuns;
    SortRanks(objective, runs);
    assert RanksBefore(objective, SortRuns(objective, runs)[kept], SortRuns(objective, runs)[left]);
  }

  /** In figures: a run before another scores more, or the same and was run earlier. */
  lemma RankedInFigures(objective: Objective, runs: seq<SweepRun>, i: nat, j: nat)
    requires Scorable(runs) && Ranked(objective, runs) && i < j < |runs|
    ensures var x, y := ScoreRun(objective, runs[i].aggregate), ScoreRun(objective, runs[j].aggregate);
            x > y || (x == y && runs[i].position < runs[j].position)
  {
    hide ScoreRun;
    assert RanksBefore(objective, runs[i], runs[j]);
  }

  datatype SweepResult = SweepResult(runs: seq<SweepRun>, top: seq<SweepRun>)

  /** The run of the grid point at its position, with the outcome of that benchmark. */
  ghost predicate IsRunOf(run: SweepRun, grid: seq<GridPoint>, bench: nat -> Option<AggregateRow>) {
    run.position < |grid| && run.point == grid[run.position] && bench(run.position) == Some(run.aggregate)
  }

  /** Runs the whole grid, unless a benchmark fails, and ranks the results. The outcome of
      the i-th benchmark is whatever `bench(i)` says. */
  method RunSweep(streams: seq<U16>, rates: seq<RateMode>, objective: Objective, top: nat,
                  bench: nat -> Option<AggregateRow>)
    returns (result: Option<SweepResult>)
    requires forall i :: bench(i).Some? ==> bench(i).value.lossPct >= 0.0
    ensures result.None? <==> exists i :: 0 <= i < |streams| * |rates| && bench(i).None?
    ensures result.Some? ==>
              var runs := result.value.runs;
              && Scorable(runs) && Ranked(objective, runs)
              && multiset(Points(runs)) == multiset(Grid(streams, rates))
              && (forall i :: 0 <= i < |runs| ==> IsRunOf(runs[i], Grid(streams, rates), bench))
              && |result.value.top| == Min(top, |streams| * |rates|)
              && result.value.top <= runs
  {
    hide ScoreRun, SortRuns, InsertRun, RanksBefore, IsRunOf;
    var runs: seq<SweepRun> := [];
    GridSize(streams, rates);
    for i := 0 to |streams|
      invariant Points(runs) == Grid(streams[..i], rates) && |runs| == i * |rates|
      invariant Walked(runs, bench)
    {
      GridSize(streams[..i], rates);
      for j := 0 to |rates|
        invariant Points(runs) == Grid(streams[..i], rates) + GridRow(streams[i], rates)[..j]
        invariant |runs| == i * |rates| + j
        invariant Walked(runs, bench)
      {
        var outcome := bench(|runs|);
        assert |runs| < |streams| * |rates| by {
          MulMonotone(i + 1, |streams|, |rates|);
          assert (i + 1) * |rates| == i * |rates| + |rates|;
        }
        if outcome.None? {
          return None;
        }
        var run := SweepRun(GridPoint(streams[i], rates[j]), |runs|, outcome.value);
        assert Points(runs + [run]) == Points(runs) + [run.point];
        assert GridRow(streams[i], rates)[..j + 1] == GridRow(streams[i], rates)[..j] + [run.point];
        runs := runs + [run];
      }
      assert streams[..i + 1][..i] == streams[..i];
      assert GridRow(streams[i], rates)[..|rates|] == GridRow(streams[i], rates);
      assert (i + 1) * |rates| == i * |rates| + |rates|;
    }
    assert streams[..|streams|] == streams;
    SortRanks(objective, runs);
    var sorted := SortRuns(objective, runs);
    SortedAreRuns(runs, sorted, Grid(streams, rates), bench);
    return Some(SweepResult(sorted, sorted[..Min(top, |sorted|)]));
  }

  lemma SortedAreRuns(runs: seq<SweepRun>, sorted: seq<SweepRun>, grid: seq<GridPoint>,
                      bench: nat -> Option<AggregateRow>)
    requires Walked(runs, bench) && Points(runs) == grid && multiset(sorted) == multiset(runs)
    ensures forall k :: 0 <= k < |sorted| ==> IsRunOf(sorted[k], grid, bench)
  {
    forall k | 0 <= k < |sorted| ensures IsRunOf(sorted[k], grid, bench) {
      assert sorted[k] in multiset(runs);
      var i :| 0 <= i < |runs| && runs[i] == sorted[k];
      assert Points(runs)[i] == runs[i].point;
    }
  }

  /** The runs so far carry their positions and outcomes. */
  ghost predicate Walked(runs: seq<SweepRun>, bench: nat -> Option<AggregateRow>) {
    && Scorable(runs)
    && forall i :: 0 <= i < |runs| ==> runs[i].position == i && bench(i) == Some(runs[i].aggregate)
  }
}
