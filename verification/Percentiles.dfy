/**
 The exporter's percentiles over the reals. Rounding to six places is any
 function that keeps the order of its arguments.
 */
module Percentiles {
  import opened Options

  // ------------------------------------------------------------------ sorting

  predicate IsSorted(s: seq<real>) {
    forall i, j :: 0 <= i <= j < |s| ==> s[i] <= s[j]
  }

  function Insert(s: seq<real>, x: real): (r: seq<real>)
    ensures |r| == |s| + 1
  {
    if s == [] || s[|s| - 1] <= x then s + [x]
    else Insert(s[..|s| - 1], x) + [s[|s| - 1]]
  }

  function Sorted(values: seq<real>): (r: seq<real>)
    ensures |r| == |values|
  {
    if values == [] then [] else Insert(Sorted(values[..|values| - 1]), values[|values| - 1])
  }

  lemma {:induction false} InsertAdds(s: seq<real>, x: real)
    ensures multiset(Insert(s, x)) == multiset(s) + multiset{x}
  {
    if s != [] && x < s[|s| - 1] {
      InsertAdds(s[..|s| - 1], x);
      assert s == s[..|s| - 1] + [s[|s| - 1]];
    }
  }

  lemma SortedSnoc(s: seq<real>, last: real)
    requires IsSorted(s) && (s != [] ==> s[|s| - 1] <= last)
    ensures IsSorted(s + [last])
  {
  }

  lemma {:induction false} InsertSorts(s: seq<real>, x: real)
    requires IsSorted(s)
    ensures IsSorted(Insert(s, x))
    ensures var r := Insert(s, x); r[|r| - 1] == if s == [] || s[|s| - 1] <= x then x else s[|s| - 1]
  {
    if s == [] || s[|s| - 1] <= x {
      SortedSnoc(s, x);
    } else {
      InsertSorts(s[..|s| - 1], x);
      SortedSnoc(Insert(s[..|s| - 1], x), s[|s| - 1]);
    }
  }

  lemma BagSnoc(s: seq<real>)
    requires s != []
    ensures multiset(s) == multiset(s[..|s| - 1]) + multiset{s[|s| - 1]}
  {
    assert s == s[..|s| - 1] + [s[|s| - 1]];
  }

  lemma SortedStep(values: seq<real>)
    requires values != []
    ensures Sorted(values) == Insert(Sorted(values[..|values| - 1]), values[|values| - 1])
  {
  }

  lemma NothingSorted()
    ensures Sorted([]) == [] && IsSorted([])
  {
  }

  lemma {:induction false} SortedSorts(values: seq<real>)
    ensures IsSorted(Sorted(values)) && multiset(Sorted(values)) == multiset(values)
    decreases |values|
  {
    hide Sorted, Insert, IsSorted;
    if values == [] {
      NothingSorted();
    } else {
      var front, last := values[..|values| - 1], values[|values| - 1];
      SortedSorts(front);
      SortedStep(values);
      InsertSorts(Sorted(front), last);
      InsertAdds(Sorted(front), last);
      BagSnoc(values);
    }
  }

  lemma LastIsGreatest(s: seq<real>, x: real)
    requires IsSorted(s) && x in multiset(s)
    ensures s[0] <= x <= s[|s| - 1]
  {
    var i :| 0 <= i < |s| && s[i] == x;
  }

  lemma FrontSorted(s: seq<real>)
    requires IsSorted(s) && s != []
    ensures IsSorted(s[..|s| - 1])
  {
  }

  lemma SameGreatest(a: seq<real>, b: seq<real>)
    requires IsSorted(a) && IsSorted(b) && multiset(a) == multiset(b) && a != [] && b != []
    ensures a[|a| - 1] == b[|b| - 1]
  {
    hide IsSorted;
    var x, y := a[|a| - 1], b[|b| - 1];
    assert x in multiset(a) && y in multiset(b);
    LastIsGreatest(a, y);
    LastIsGreatest(b, x);
  }

  /** A multiset has one sorted sequence. */
  lemma {:induction false} SortedUnique(a: seq<real>, b: seq<real>)
    requires IsSorted(a) && IsSorted(b) && multiset(a) == multiset(b)
    ensures a == b
    decreases |a|
  {
    hide IsSorted;
    assert |multiset(a)| == |multiset(b)|;
    if a != [] {
      var x := a[|a| - 1];
      SameGreatest(a, b);
      FrontSorted(a);
      FrontSorted(b);
      BagSnoc(a);
      BagSnoc(b);
      SameRest(multiset(a[..|a| - 1]), multiset(b[..|b| - 1]), x);
      SortedUnique(a[..|a| - 1], b[..|b| - 1]);
      assert a == a[..|a| - 1] + [x] && b == b[..|b| - 1] + [x];
    }
  }

  lemma SameRest(a: multiset<real>, b: multiset<real>, x: real)
    requires a + multiset{x} == b + multiset{x}
    ensures a == b
  {
    assert a == a + multiset{x} - multiset{x};
    assert b == b + multiset{x} - multiset{x};
  }

  // ------------------------------------------------------------ interpolation

  function Mix(x: real, y: real, weight: real): real {
    x * (1.0 - weight) + y * weight
  }

  lemma MixBetween(x: real, y: real, v: real, w: real)
    requires x <= y && 0.0 <= v <= w <= 1.0
    ensures x <= Mix(x, y, v) <= Mix(x, y, w) <= y
  {
    var d := y - x;
    assert Mix(x, y, v) == x + d * v;
    assert Mix(x, y, w) == x + d * w;
    assert 0.0 <= d * v <= d * w <= d;
  }

  predicate InRange(ordered: seq<real>, rank: real) {
    0.0 <= rank <= (|ordered| - 1) as real
  }

  function Lower(ordered: seq<real>, rank: real): (i: nat)
    requires InRange(ordered, rank)
    ensures i < |ordered| && i as real <= rank < (i + 1) as real
  {
    rank.Floor
  }

  function Upper(ordered: seq<real>, rank: real): (i: nat)
    requires InRange(ordered, rank)
    ensures i == Lower(ordered, rank) + 1 < |ordered| || i == Lower(ordered, rank) == |ordered| - 1
  {
    var lower := Lower(ordered, rank);
    if lower + 1 <= |ordered| - 1 then lower + 1 else |ordered| - 1
  }

  /** The value at a fractional rank, between the two ordered values around it. */
  function At(ordered: seq<real>, rank: real): real
    requires InRange(ordered, rank)
  {
    var lower := Lower(ordered, rank);
    Mix(ordered[lower], ordered[Upper(ordered, rank)], rank - lower as real)
  }

  /** The value lies between its neighbours: the ordered values at the rank rounded down and at the next one. */
  lemma BetweenNeighbours(ordered: seq<real>, rank: real)
    requires IsSorted(ordered) && InRange(ordered, rank)
    ensures ordered[Lower(ordered, rank)] <= At(ordered, rank) <= ordered[Upper(ordered, rank)]
  {
    hide Mix;
    var weight := rank - Lower(ordered, rank) as real;
    MixBetween(ordered[Lower(ordered, rank)], ordered[Upper(ordered, rank)], weight, weight);
  }

  /** At a whole rank the value is the ordered value itself. */
  lemma AtWhole(ordered: seq<real>, k: nat)
    requires k < |ordered|
    ensures At(ordered, k as real) == ordered[k]
  {
    assert Lower(ordered, k as real) == k;
  }

  /** A larger rank never has a smaller value, within a segment or across its ends. */
  lemma AtMonotone(ordered: seq<real>, r: real, s: real)
    requires IsSorted(ordered) && InRange(ordered, r) && InRange(ordered, s) && r <= s
    ensures At(ordered, r) <= At(ordered, s)
  {
    hide Mix;
    var i, j := Lower(ordered, r), Lower(ordered, s);
    if i == j {
      MixBetween(ordered[i], ordered[Upper(ordered, r)], r - i as real, s - i as real);
    } else {
      BetweenNeighbours(ordered, r);
      BetweenNeighbours(ordered, s);
      assert Upper(ordered, r) <= j;
    }
  }

  // -------------------------------------------------------------- percentiles

  ghost predicate Monotone(round: real -> real) {
    forall x, y :: x <= y ==> round(x) <= round(y)
  }

  function Rank(n: nat, fraction: real): (r: real)
    requires 0 < n && 0.0 <= fraction <= 1.0
    ensures 0.0 <= r <= (n - 1) as real
  {
    (n - 1) as real * fraction
  }

  function Percentile(values: seq<real>, fraction: real, round: real -> real): Option<real>
    requires 0.0 <= fraction <= 1.0
  {
    if values == [] then None
    else
      var ordered := Sorted(values);
      if |ordered| == 1 then Some(round(ordered[0]))
      else Some(round(At(ordered, Rank(|ordered|, fraction))))
  }

  lemma TimesGrows(m: real, f: real, g: real)
    requires 0.0 <= m && f <= g
    ensures m * f <= m * g
  {
    var d := g - f;
    assert 0.0 <= m * d;
    assert m * g == m * f + m * d;
  }

  lemma RankGrows(n: nat, f: real, g: real)
    requires 0 < n && 0.0 <= f <= g <= 1.0
    ensures Rank(n, f) <= Rank(n, g)
  {
    TimesGrows((n - 1) as real, f, g);
  }

  function Min(values: seq<real>): real
    requires values != []
  {
    if |values| == 1 then values[0]
    else
      var rest, last := Min(values[..|values| - 1]), values[|values| - 1];
      if last < rest then last else rest
  }

  function Max(values: seq<real>): real
    requires values != []
  {
    if |values| == 1 then values[0]
    else
      var rest, last := Max(values[..|values| - 1]), values[|values| - 1];
      if last > rest then last else rest
  }

  lemma {:induction false} Extremes(values: seq<real>)
    requires values != []
    ensures Min(values) in values && Max(values) in values
    ensures forall x <- values :: Min(values) <= x <= Max(values)
    decreases |values|
  {
    if |values| > 1 {
      Extremes(values[..|values| - 1]);
      assert values == values[..|values| - 1] + [values[|values| - 1]];
    }
  }

  lemma EndsAreExtremes(values: seq<real>)
    requires values != []
    ensures Sorted(values)[0] == Min(values)
    ensures Sorted(values)[|values| - 1] == Max(values)
  {
    hide Sorted, Min, Max, IsSorted;
    SortedSorts(values);
    Extremes(values);
    var s := Sorted(values);
    assert s[0] in multiset(s) && s[|s| - 1] in multiset(s);
    assert s[0] in values && s[|s| - 1] in values;
    assert Min(values) in multiset(values) && Max(values) in multiset(values);
    LastIsGreatest(s, Min(values));
    LastIsGreatest(s, Max(values));
  }

  /** The same values in another order have the same percentiles. */
  lemma PercentileIgnoresOrder(a: seq<real>, b: seq<real>, fraction: real, round: real -> real)
    requires 0.0 <= fraction <= 1.0 && multiset(a) == multiset(b)
    ensures Percentile(a, fraction, round) == Percentile(b, fraction, round)
  {
    hide Rank, At;
    assert |multiset(a)| == |multiset(b)|;
    SortedSorts(a);
    SortedSorts(b);
    SortedUnique(Sorted(a), Sorted(b));
  }

  /** One formula covers the single-value branch too. */
  lemma PercentileIsAt(values: seq<real>, fraction: real, round: real -> real)
    requires 0.0 <= fraction <= 1.0 && values != []
    ensures Percentile(values, fraction, round) == Some(round(At(Sorted(values), Rank(|values|, fraction))))
  {
    hide Rank, At, Sorted;
    if |values| == 1 {
      AtWhole(Sorted(values), 0);
    }
  }

  /** Between the least and the greatest value, and never falling as the fraction grows. */
  lemma PercentileMonotone(values: seq<real>, f: real, g: real, round: real -> real)
    requires 0.0 <= f <= g <= 1.0 && values != [] && Monotone(round)
    ensures Percentile(values, f, round).Some? && Percentile(values, g, round).Some?
    ensures round(Min(values)) <= Percentile(values, f, round).value
         <= Percentile(values, g, round).value <= round(Max(values))
  {
    hide Rank, At, Sorted, Min, Max, Percentile;
    PercentileIsAt(values, f, round);
    PercentileIsAt(values, g, round);
    SortedSorts(values);
    EndsAreExtremes(values);
    RankGrows(|values|, f, g);
    AtMonotone(Sorted(values), Rank(|values|, f), Rank(|values|, g));
    BetweenNeighbours(Sorted(values), Rank(|values|, f));
    BetweenNeighbours(Sorted(values), Rank(|values|, g));
  }

  lemma DivideTimes(k: nat, n: nat)
    requires 1 < n && k < n
    ensures 0.0 <= k as real / (n - 1) as real <= 1.0
    ensures Rank(n, k as real / (n - 1) as real) == k as real
  {
  }

  /** At the fraction k/(n-1) the percentile is the k-th smallest value. */
  lemma PercentileHitsValues(values: seq<real>, k: nat, round: real -> real)
    requires 1 < |values| && k < |values|
    ensures 0.0 <= k as real / (|values| - 1) as real <= 1.0
    ensures Percentile(values, k as real / (|values| - 1) as real, round) == Some(round(Sorted(values)[k]))
  {
    hide Rank, At, Sorted, Percentile;
    DivideTimes(k, |values|);
    PercentileIsAt(values, k as real / (|values| - 1) as real, round);
    AtWhole(Sorted(values), k);
  }

  lemma MixHalf(x: real, y: real)
    ensures Mix(x, y, 0.5) == (x + y) / 2.0
  {
  }

  /** p50 is the median: the middle value of an odd sample, the mean of the two middle values of an even one. */
  lemma MedianIs(values: seq<real>, round: real -> real)
    requires values != []
    ensures var n, s := |values|, Sorted(values);
      Percentile(values, 0.5, round) ==
        Some(round(if n % 2 == 1 then s[n / 2] else (s[n / 2 - 1] + s[n / 2]) / 2.0))
  {
    var n, s := |values|, Sorted(values);
    hide Sorted, Percentile, Mix;
    PercentileIsAt(values, 0.5, round);
    if n % 2 == 1 {
      assert Rank(n, 0.5) == (n / 2) as real;
      AtWhole(s, n / 2);
    } else {
      assert Rank(n, 0.5) == (n / 2 - 1) as real + 0.5;
      assert Lower(s, Rank(n, 0.5)) == n / 2 - 1;
      MixHalf(s[n / 2 - 1], s[n / 2]);
    }
  }

  lemma MixAffine(x: real, y: real, v: real, w: real)
    ensures Mix(x, y, (v + w) / 2.0) == (Mix(x, y, v) + Mix(x, y, w)) / 2.0
  {
    var d := y - x;
    assert Mix(x, y, v) == x + d * v;
    assert Mix(x, y, w) == x + d * w;
    assert Mix(x, y, (v + w) / 2.0) == x + d * ((v + w) / 2.0);
    assert d * ((v + w) / 2.0) == (d * v + d * w) / 2.0;
  }

  /** Between two neighbouring ranks the value follows a straight line. */
  lemma StraightWithinSegment(ordered: seq<real>, r: real, s: real)
    requires InRange(ordered, r) && InRange(ordered, s) && Lower(ordered, r) == Lower(ordered, s)
    ensures InRange(ordered, (r + s) / 2.0)
    ensures At(ordered, (r + s) / 2.0) == (At(ordered, r) + At(ordered, s)) / 2.0
  {
    hide Mix;
    var i, m := Lower(ordered, r), (r + s) / 2.0;
    assert Lower(ordered, m) == i;
    MixAffine(ordered[i], ordered[Upper(ordered, r)], r - i as real, s - i as real);
    assert (r - i as real + (s - i as real)) / 2.0 == m - i as real;
  }
}
