/** The exporter's duration summary of a list of timed rows. */
module Durations {
  import opened Options
  import opened Grouping
  import opened Percentiles

  // The two timestamps of a row, in seconds; None where the text is missing or cannot be parsed.
  datatype TimedRow = TimedRow(startedAt: Option<real>, completedAt: Option<real>)

  datatype Distribution = Distribution(
    observations: nat, unavailable: nat,
    min: Option<real>, mean: Option<real>, p50: Option<real>, p95: Option<real>, max: Option<real>)

  /** The elapsed time, or zero for a row that ends before it starts. */
  function DurationSeconds(row: TimedRow): Option<real> {
    if row.startedAt.None? || row.completedAt.None? then None
    else
      var elapsed := row.completedAt.value - row.startedAt.value;
      Some(if elapsed > 0.0 then elapsed else 0.0)
  }

  function Values(rows: seq<TimedRow>): (values: seq<real>)
    ensures |values| <= |rows|
  {
    if rows == [] then []
    else
      var front, last := Values(rows[..|rows| - 1]), DurationSeconds(rows[|rows| - 1]);
      if last.Some? then front + [last.value] else front
  }

  function Sum(values: seq<real>): real {
    if values == [] then 0.0 else Sum(values[..|values| - 1]) + values[|values| - 1]
  }

  function Mean(values: seq<real>): real
    requires values != []
  {
    Sum(values) / |values| as real
  }

  function DurationDistribution(rows: seq<TimedRow>, round: real -> real): Distribution {
    var values := Values(rows);
    Distribution(
      |values|, |rows| - |values|,
      if values != [] then Some(round(Min(values))) else None,
      if values != [] then Some(round(Mean(values))) else None,
      Percentile(values, 0.50, round),
      Percentile(values, 0.95, round),
      if values != [] then Some(round(Max(values))) else None)
  }

  // -------------------------------------------------------------- properties

  lemma {:induction false} SumBounds(values: seq<real>, low: real, high: real)
    requires forall x <- values :: low <= x <= high
    ensures low * |values| as real <= Sum(values) <= high * |values| as real
    decreases |values|
  {
    if values != [] {
      var front, last := values[..|values| - 1], values[|values| - 1];
      forall x <- front ensures low <= x <= high {
        assert x in values;
      }
      SumBounds(front, low, high);
      OneMore(low, |front|);
      OneMore(high, |front|);
      assert last in values;
      assert |values| == |front| + 1;
    }
  }

  lemma OneMore(x: real, n: nat)
    ensures x * (n + 1) as real == x * n as real + x
  {
  }

  lemma DivideBounds(sum: real, n: nat, low: real, high: real)
    requires 0 < n && low * n as real <= sum <= high * n as real
    ensures low <= sum / n as real <= high
  {
    QuotientBounds(sum, n as real, low, high);
  }

  lemma QuotientBounds(sum: real, m: real, low: real, high: real)
    requires 0.0 < m && low * m <= sum <= high * m
    ensures low <= sum / m <= high
  {
    assert (sum / m) * m == sum;
  }

  lemma MeanBetween(values: seq<real>)
    requires values != []
    ensures Min(values) <= Mean(values) <= Max(values)
  {
    Extremes(values);
    SumBounds(values, Min(values), Max(values));
    DivideBounds(Sum(values), |values|, Min(values), Max(values));
  }

  lemma {:induction false} ValuesAreDurations(rows: seq<TimedRow>)
    ensures forall x <- Values(rows) :: 0.0 <= x
    ensures Values(rows) == [] <==> forall row <- rows :: DurationSeconds(row).None?
    decreases |rows|
  {
    if rows != [] {
      ValuesAreDurations(rows[..|rows| - 1]);
      assert rows == rows[..|rows| - 1] + [rows[|rows| - 1]];
    }
  }

  /** Every summary of at least one timed row reads min <= p50 <= p95 <= max, with the mean between the ends. */
  lemma SummaryIsOrdered(rows: seq<TimedRow>, round: real -> real)
    requires Monotone(round)
    requires exists row <- rows :: DurationSeconds(row).Some?
    ensures var d := DurationDistribution(rows, round);
      && d.observations + d.unavailable == |rows|
      && d.min.Some? && d.mean.Some? && d.p50.Some? && d.p95.Some? && d.max.Some?
      && round(0.0) <= d.min.value <= d.p50.value <= d.p95.value <= d.max.value
      && d.min.value <= d.mean.value <= d.max.value
  {
    hide Percentile, Mean, Min, Max, DurationSeconds;
    var values := Values(rows);
    ValuesAreDurations(rows);
    PercentileMonotone(values, 0.50, 0.95, round);
    MeanBetween(values);
    Extremes(values);
  }

  /** The 95th percentile of 20j + 1 values is the one with 19j before it. */
  lemma NinetyFifth(values: seq<real>, j: nat, round: real -> real)
    requires |values| == 20 * j + 1
    ensures Percentile(values, 0.95, round) == Some(round(Sorted(values)[19 * j]))
  {
    hide At, Sorted, Percentile;
    PercentileIsAt(values, 0.95, round);
    assert Rank(|values|, 0.95) == (19 * j) as real;
    AtWhole(Sorted(values), 19 * j);
  }

  /**
   The summary on the sorted durations: the ends, the mean of all, the median,
   and, where 20 divides all but one of them, the value with nineteen parts in
   twenty before it.
   */
  lemma SummaryIs(rows: seq<TimedRow>, round: real -> real)
    requires Values(rows) != []
    ensures var d, s, n := DurationDistribution(rows, round), Sorted(Values(rows)), |Values(rows)|;
      && d.min == Some(round(s[0])) && d.max == Some(round(s[n - 1]))
      && d.mean == Some(round(Sum(s) / n as real))
      && d.p50 == Some(round(if n % 2 == 1 then s[n / 2] else (s[n / 2 - 1] + s[n / 2]) / 2.0))
      && forall j: nat :: n == 20 * j + 1 ==> d.p95 == Some(round(s[19 * j]))
  {
    hide Percentile, Sorted, Min, Max, Sum, Values, IsSorted;
    var values := Values(rows);
    MedianIs(values, round);
    EndsAreExtremes(values);
    SortedSorts(values);
    SumIgnoresOrder(Sorted(values), values);
    forall j: nat | |values| == 20 * j + 1
      ensures Percentile(values, 0.95, round) == Some(round(Sorted(values)[19 * j]))
    {
      NinetyFifth(values, j, round);
    }
  }

  lemma {:induction false} SumConcat(a: seq<real>, b: seq<real>)
    ensures Sum(a + b) == Sum(a) + Sum(b)
    decreases |b|
  {
    if b == [] {
      assert a + b == a;
    } else {
      assert (a + b)[..|a + b| - 1] == a + b[..|b| - 1];
      SumConcat(a, b[..|b| - 1]);
    }
  }

  lemma SumSnoc(front: seq<real>, x: real)
    ensures Sum(front + [x]) == Sum(front) + x
  {
    assert (front + [x])[..|front|] == front;
  }

  lemma {:induction false} SumIgnoresOrder(a: seq<real>, b: seq<real>)
    requires multiset(a) == multiset(b)
    ensures Sum(a) == Sum(b)
    decreases |a|
  {
    hide Sum;
    if a == [] {
      assert |multiset(b)| == 0;
    } else {
      var front, x := a[..|a| - 1], a[|a| - 1];
      assert a == front + [x];
      assert x in multiset(b);
      var i :| 0 <= i < |b| && b[i] == x;
      var left, right := b[..i], b[i + 1..];
      assert b == left + [x] + right;
      SameOthers(front, x, left, right);
      SumIgnoresOrder(front, left + right);
      SumSnoc(front, x);
      SumSnoc(left, x);
      SumConcat(left + [x], right);
      SumConcat(left, right);
    }
  }

  /** Two lists of rows together: each mean weighs as much as it has measurable rows. */
  lemma MeansPool(a: seq<TimedRow>, b: seq<TimedRow>)
    requires Values(a) != [] && Values(b) != []
    ensures Values(a + b) == Values(a) + Values(b)
    ensures Mean(Values(a + b)) * |Values(a + b)| as real
         == Mean(Values(a)) * |Values(a)| as real + Mean(Values(b)) * |Values(b)| as real
  {
    hide Values, Sum, Mean;
    ValuesConcat(a, b);
    SumConcat(Values(a), Values(b));
    MeanTimes(Values(a));
    MeanTimes(Values(b));
    MeanTimes(Values(a + b));
  }

  lemma MeanTimes(values: seq<real>)
    requires values != []
    ensures Mean(values) * |values| as real == Sum(values)
  {
    hide Sum;
  }

  lemma {:induction false} ValuesConcat(a: seq<TimedRow>, b: seq<TimedRow>)
    ensures Values(a + b) == Values(a) + Values(b)
    decreases |b|
  {
    if b == [] {
      assert a + b == a;
    } else {
      assert (a + b)[..|a + b| - 1] == a + b[..|b| - 1];
      ValuesConcat(a, b[..|b| - 1]);
    }
  }

  lemma OneValue(t: real)
    ensures Min([t]) == t && Max([t]) == t && Mean([t]) == t && Sorted([t]) == [t]
  {
    assert [t][..0] == [] && [] + [t] == [t];
    SumSnoc([], t);
    SortedStep([t]);
    NothingSorted();
  }

  lemma OnePercentile(t: real, fraction: real, round: real -> real)
    requires 0.0 <= fraction <= 1.0
    ensures Percentile([t], fraction, round) == Some(round(t))
  {
    hide At, Sorted;
    OneValue(t);
  }

  lemma OneDuration(row: TimedRow)
    requires DurationSeconds(row).Some?
    ensures Values([row]) == [DurationSeconds(row).value]
  {
    hide DurationSeconds;
    assert [row][..0] == [];
  }

  /** One row: all five statistics are the time from its start to its completion, and zero where they are the wrong way round. */
  lemma SummaryOfOne(start: real, end: real, round: real -> real)
    ensures var t := Some(round(if start <= end then end - start else 0.0));
      DurationDistribution([TimedRow(Some(start), Some(end))], round) == Distribution(1, 0, t, t, t, t, t)
  {
    hide Percentile, Values, Mean, Min, Max;
    var row := TimedRow(Some(start), Some(end));
    var t := if start <= end then end - start else 0.0;
    assert DurationSeconds(row) == Some(t);
    OneDuration(row);
    OneValue(t);
    OnePercentile(t, 0.50, round);
    OnePercentile(t, 0.95, round);
  }

  /** Without a single measurable row every statistic is absent, and all rows count as unavailable. */
  lemma SummaryOfNothing(rows: seq<TimedRow>, round: real -> real)
    ensures (forall row <- rows :: DurationSeconds(row).None?)
       <==> DurationDistribution(rows, round) == Distribution(0, |rows|, None, None, None, None, None)
  {
    ValuesAreDurations(rows);
  }
}
