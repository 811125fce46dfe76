/** Rank statistics over latencies, which are whole nanoseconds here. */
module Ranks {
  import opened Base

  function Insert(x: nat, s: seq<nat>): seq<nat> {
    if s == [] || x <= s[0] then [x] + s else [s[0]] + Insert(x, s[1..])
  }

  /** The values in ascending order. */
  function Sorted(s: seq<nat>): seq<nat> {
    if s == [] then [] else Insert(s[0], Sorted(s[1..]))
  }

  lemma {:induction false} InsertAdds(x: nat, s: seq<nat>)
    ensures multiset(Insert(x, s)) == multiset(s) + multiset{x}
    ensures Insert(x, s) != [] && (Insert(x, s)[0] == x || (s != [] && Insert(x, s)[0] == s[0]))
  {
    if s != [] && x > s[0] {
      assert s == [s[0]] + s[1..];
      InsertAdds(x, s[1..]);
    }
  }

  lemma {:induction false} InsertSorts(x: nat, s: seq<nat>)
    requires Nondecreasing(s)
    ensures Nondecreasing(Insert(x, s))
  {
    hide Nondecreasing;
    if s == [] || x <= s[0] {
      ConsKeepsOrder(x, s);
    } else {
      TailKeepsOrder(s);
      InsertSorts(x, s[1..]);
      InsertAdds(x, s[1..]);
      ConsKeepsOrder(s[0], Insert(x, s[1..]));
    }
  }

  lemma TailKeepsOrder(s: seq<nat>)
    requires Nondecreasing(s) && s != []
    ensures Nondecreasing(s[1..]) && (|s| > 1 ==> s[0] <= s[1])
  {
  }

  lemma ConsKeepsOrder(x: nat, s: seq<nat>)
    requires Nondecreasing(s) && (s != [] ==> x <= s[0])
    ensures Nondecreasing([x] + s)
  {
    forall i, j | 0 <= i <= j < |[x] + s| ensures ([x] + s)[i] <= ([x] + s)[j] {
      if 0 < i {
        assert s[i - 1] <= s[j - 1];
      } else if 0 < j {
        assert s[0] <= s[j - 1];
      }
    }
  }

  lemma {:induction false} SortedIsSorted(s: seq<nat>)
    ensures Nondecreasing(Sorted(s))
    ensures multiset(Sorted(s)) == multiset(s) && |Sorted(s)| == |s|
  {
    if s != [] {
      assert s == [s[0]] + s[1..];
      SortedIsSorted(s[1..]);
      InsertSorts(s[0], Sorted(s[1..]));
      InsertAdds(s[0], Sorted(s[1..]));
    }
    assert |multiset(Sorted(s))| == |multiset(s)|;
  }

  lemma LeastIsFirst(a: seq<nat>, b: seq<nat>)
    requires Nondecreasing(a) && b != [] && a != [] && multiset(a) == multiset(b)
    ensures a[0] <= b[0]
  {
    assert b[0] in multiset(a);
    var i :| 0 <= i < |a| && a[i] == b[0];
  }

  /** Two ascending lists of the same values are the same list. */
  lemma {:induction false} SortedIsUnique(a: seq<nat>, b: seq<nat>)
    requires Nondecreasing(a) && Nondecreasing(b) && multiset(a) == multiset(b)
    ensures a == b
  {
    hide Nondecreasing;
    assert |multiset(a)| == |multiset(b)|;
    if a != [] {
      assert a == [a[0]] + a[1..] && b == [b[0]] + b[1..];
      TailKeepsOrder(a);
      TailKeepsOrder(b);
      LeastIsFirst(a, b);
      LeastIsFirst(b, a);
      assert multiset(a[1..]) == multiset(a) - multiset{a[0]};
      assert multiset(b[1..]) == multiset(b) - multiset{b[0]};
      SortedIsUnique(a[1..], b[1..]);
    }
  }

  /** The rank of the `percent`-quantile among `n` values: (n - 1) * percent / 100,
      rounded half up; percentages above 100 count as 100. */
  function Rank(n: nat, percent: nat): (idx: nat)
    requires n > 0
    ensures idx < n
  {
    var x: nat := Scale(n - 1, Min(percent, 100));
    (x + 50) / 100
  }

  function Scale(last: nat, p: nat): (x: nat)
    requires p <= 100
    ensures x <= last * 100
  {
    MulMonotone(0, p, last);
    MulMonotone(p, 100, last);
    last * p
  }

  /** The value at the quantile's rank, zero when there are none. */
  function Quantile(values: seq<nat>, percent: nat): nat {
    if values == [] then 0
    else
      SortedIsSorted(values);
      Sorted(values)[Rank(|values|, percent)]
  }

  function AtMost(v: nat): nat -> bool {
    (x: nat) => x <= v
  }

  function AtLeast(v: nat): nat -> bool {
    (x: nat) => x >= v
  }

  function CountUpTo(s: seq<nat>, v: nat): nat {
    |Filter(AtMost(v), s)|
  }

  function CountFrom(s: seq<nat>, v: nat): nat {
    |Filter(AtLeast(v), s)|
  }

  lemma {:induction false} FilterIsCount(keep: nat -> bool, a: seq<nat>, b: seq<nat>)
    requires multiset(a) == multiset(b)
    ensures |Filter(keep, a)| == |Filter(keep, b)|
  {
    assert |multiset(a)| == |multiset(b)|;
    if a != [] {
      var n := |a| - 1;
      assert a == a[..n] + [a[n]];
      assert a[n] in multiset(b);
      var k :| 0 <= k < |b| && b[k] == a[n];
      var rest := b[..k] + b[k + 1..];
      assert b == b[..k] + [b[k]] + b[k + 1..];
      assert multiset(rest) == multiset(b) - multiset{b[k]};
      assert multiset(a[..n]) == multiset(a) - multiset{a[n]};
      FilterIsCount(keep, a[..n], rest);
      FilterConcat(keep, b[..k] + [b[k]], b[k + 1..]);
      FilterSnoc(keep, b[..k], b[k]);
      FilterConcat(keep, b[..k], b[k + 1..]);
    }
  }

  /** In an ascending list, everything up to index `i` is at most its value, and everything
      from there on at least. */
  lemma RankCounts(s: seq<nat>, i: nat)
    requires Nondecreasing(s) && i < |s|
    ensures CountUpTo(s, s[i]) >= i + 1 && CountFrom(s, s[i]) >= |s| - i
  {
    hide Filter;
    var low, high := s[..i + 1], s[i..];
    assert s == low + s[i + 1..] && s == s[..i] + high;
    FilterConcat(AtMost(s[i]), low, s[i + 1..]);
    FilterConcat(AtLeast(s[i]), s[..i], high);
    assert forall k :: 0 <= k < |low| ==> low[k] == s[k] <= s[i];
    assert forall k :: 0 <= k < |high| ==> high[k] == s[i + k] >= s[i];
    FilterAll(AtMost(s[i]), low);
    FilterAll(AtLeast(s[i]), high);
  }

  ghost function Places(keep: nat -> bool, s: seq<nat>): set<nat> {
    set i: nat | i < |s| && keep(s[i])
  }

  lemma PlacesSnoc(keep: nat -> bool, s: seq<nat>, x: nat)
    ensures Places(keep, s + [x]) == Places(keep, s) + if keep(x) then {|s|} else {}
    ensures |s| !in Places(keep, s)
  {
  }

  lemma {:induction false} CountIsSize(keep: nat -> bool, s: seq<nat>)
    ensures |Filter(keep, s)| == |Places(keep, s)|
  {
    if s == [] {
      assert Places(keep, s) == {};
    } else {
      hide Places;
      var init, x := s[..|s| - 1], s[|s| - 1];
      assert s == init + [x];
      CountIsSize(keep, init);
      PlacesSnoc(keep, init, x);
    }
  }

  /** Half-up rounding of the rank, without division. */
  lemma RankIsRounded(n: nat, percent: nat)
    requires n > 0 && percent <= 100
    ensures 100 * Rank(n, percent) <= (n - 1) * percent + 50 < 100 * (Rank(n, percent) + 1)
  {
  }

  /** The quantile is one of the values: with the rank (n - 1) * percent / 100 rounded half
      up, more than rank of the values are at most it, and all but rank at least. */
  lemma QuantileIsRanked(values: seq<nat>, percent: nat)
    requires values != [] && percent <= 100
    ensures var q, n := Quantile(values, percent), |values|;
            && q in values
            && 100 * |set i: nat | i < |values| && values[i] <= q| > (n - 1) * percent + 50
            && 100 * |set i: nat | i < |values| && values[i] >= q| >= 100 * n - (n - 1) * percent - 50
  {
    hide Rank, Filter;
    SortedIsSorted(values);
    var s, idx := Sorted(values), Rank(|values|, percent);
    var q := s[idx];
    assert s[idx] in multiset(values);
    RankCounts(s, idx);
    FilterIsCount(AtMost(q), s, values);
    FilterIsCount(AtLeast(q), s, values);
    CountIsSize(AtMost(q), values);
    CountIsSize(AtLeast(q), values);
    assert Places(AtMost(q), values) == set i: nat | i < |values| && values[i] <= q;
    assert Places(AtLeast(q), values) == set i: nat | i < |values| && values[i] >= q;
    RankIsRounded(|values|, percent);
  }

  /** Percentages above 100 count as 100, and without values quantile and mean are zero. */
  lemma QuantileAtTheEdges(values: seq<nat>, percent: nat)
    ensures percent >= 100 ==> Quantile(values, percent) == Quantile(values, 100)
    ensures Quantile([], percent) == 0 && Mean([]) == 0.0
  {
    hide Sorted;
  }

  /** The order in which latencies were collected does not matter. */
  lemma QuantileIgnoresOrder(a: seq<nat>, b: seq<nat>, percent: nat)
    requires multiset(a) == multiset(b)
    ensures Quantile(a, percent) == Quantile(b, percent)
  {
    assert |multiset(a)| == |multiset(b)|;
    SortedIsSorted(a);
    SortedIsSorted(b);
    SortedIsUnique(Sorted(a), Sorted(b));
  }

  /** A higher percentage never gives a lower value, so p50 <= p95 <= p99 everywhere. */
  lemma QuantileIsMonotone(values: seq<nat>, p: nat, q: nat)
    requires p <= q
    ensures Quantile(values, p) <= Quantile(values, q)
  {
    hide Rank, Sorted;
    if values != [] {
      SortedIsSorted(values);
      RankIsMonotone(|values|, p, q);
    }
  }

  lemma RankIsMonotone(n: nat, p: nat, q: nat)
    requires n > 0 && p <= q
    ensures Rank(n, p) <= Rank(n, q)
  {
    var a, b := Min(p, 100), Min(q, 100);
    MulMonotone(a, b, n - 1);
  }

  function Sum(values: seq<nat>): nat {
    if values == [] then 0 else Sum(values[..|values| - 1]) + values[|values| - 1]
  }

  /** The arithmetic mean, zero when there are no values. */
  function Mean(values: seq<nat>): real {
    if values == [] then 0.0 else Sum(values) as real / |values| as real
  }

  lemma SumSnoc(values: seq<nat>, v: nat)
    ensures Sum(values + [v]) == Sum(values) + v
  {
    assert (values + [v])[..|values|] == values;
  }

  lemma {:induction false} SumConcat(a: seq<nat>, b: seq<nat>)
    ensures Sum(a + b) == Sum(a) + Sum(b)
  {
    if b == [] {
      assert a + b == a;
    } else {
      var n := |b| - 1;
      assert a + b == (a + b[..n]) + [b[n]];
      SumConcat(a, b[..n]);
      SumSnoc(a + b[..n], b[n]);
    }
  }

  lemma {:induction false} SumIgnoresOrder(a: seq<nat>, b: seq<nat>)
    requires multiset(a) == multiset(b)
    ensures Sum(a) == Sum(b)
  {
    assert |multiset(a)| == |multiset(b)|;
    if a != [] {
      var n := |a| - 1;
      assert a == a[..n] + [a[n]];
      assert a[n] in multiset(b);
      var k :| 0 <= k < |b| && b[k] == a[n];
      var front, back := b[..k], b[k + 1..];
      assert b == (front + [b[k]]) + back;
      assert multiset(front + back) == multiset(b) - multiset{b[k]};
      assert multiset(a[..n]) == multiset(a) - multiset{a[n]};
      SumIgnoresOrder(a[..n], front + back);
      SumConcat(front, back);
      SumConcat(front + [b[k]], back);
      SumSnoc(front, b[k]);
    }
  }

  /** Nor does the order in which values were collected matter to their mean. */
  lemma MeanIgnoresOrder(a: seq<nat>, b: seq<nat>)
    requires multiset(a) == multiset(b)
    ensures Mean(a) == Mean(b)
  {
    hide Sum;
    assert |multiset(a)| == |multiset(b)|;
    SumIgnoresOrder(a, b);
  }

  lemma {:induction false} SumBounds(values: seq<nat>, lo: nat, hi: nat)
    requires forall i :: 0 <= i < |values| ==> lo <= values[i] <= hi
    ensures lo * |values| <= Sum(values) <= hi * |values|
  {
    if values != [] {
      var n := |values| - 1;
      SumBounds(values[..n], lo, hi);
      assert lo * |values| == lo * n + lo && hi * |values| == hi * n + hi;
    }
  }

  /** The mean lies between any bounds of the values, and weighs what they weigh together. */
  lemma MeanIsBetween(values: seq<nat>, lo: nat, hi: nat)
    requires values != [] && forall i :: 0 <= i < |values| ==> lo <= values[i] <= hi
    ensures lo as real <= Mean(values) <= hi as real
    ensures Mean(values) * |values| as real == Sum(values) as real
  {
    hide Sum;
    SumBounds(values, lo, hi);
    MeanTimesCount(values);
    QuotientIsBetween(Sum(values), |values|, Mean(values), lo, hi);
  }

  lemma QuotientIsBetween(sum: nat, n: nat, m: real, lo: nat, hi: nat)
    requires n > 0 && lo * n <= sum <= hi * n && m * n as real == sum as real
    ensures lo as real <= m <= hi as real
  {
    var low, high := lo * n, hi * n;
    RealOfProduct(lo, n);
    RealOfProduct(hi, n);
    assert low as real <= sum as real <= high as real;
    RealCancel(lo as real, m, n as real);
    RealCancel(m, hi as real, n as real);
  }

  lemma MeanTimesCount(values: seq<nat>)
    requires values != []
    ensures Mean(values) * |values| as real == Sum(values) as real
  {
    hide Sum;
  }

  lemma RealOfProduct(a: nat, b: nat)
    ensures (a * b) as real == a as real * b as real
  {
  }

  lemma RealCancel(a: real, b: real, n: real)
    requires n > 0.0 && a * n <= b * n
    ensures a <= b
  {
    assert 0.0 <= (b - a) * n;
  }
}
