/**
 The benchmark's latency summary: samples are sorted and percentiles interpolated linearly between the
 two samples around the requested rank.

 Samples are counted in a unit that divides them all (floats have one) and percentiles in hundredths of
 it, so that the interpolation is exact; the rounding of floats is not modelled.
 */
module Percentile {
  import opened Wrappers

  /** Percentiles in hundredths of a unit; the mean is the total over the count. */
  datatype Summary = Summary(min: int, total: int, count: nat, p50: int, p95: int, p99: int, max: int)

  predicate Sorted(s: seq<int>) {
    forall i, j :: 0 <= i <= j < |s| ==> s[i] <= s[j]
  }

  // ---------------------------------------------------------------- one percentile

  /** `(n - 1) * percentile`, whose hundredth is the position between the samples. */
  function Position(n: nat, percentile: nat): (position: nat)
    requires n > 0
    ensures percentile == 0 ==> position == 0
    ensures percentile == 100 ==> position == (n - 1) * 100
  {
    Times(n - 1, percentile)
  }

  function Times(a: nat, b: nat): nat {
    a * b
  }

  lemma {:induction false} TimesGrows(a: nat, b: nat, c: nat)
    requires b <= c
    ensures Times(a, b) <= Times(a, c)
  {
    assert a * c == a * b + a * (c - b);
  }

  function Floor(position: nat): nat { position / 100 }
  function Ceil(position: nat): nat { if position % 100 == 0 then position / 100 else position / 100 + 1 }

  lemma {:induction false} PositionInRange(n: nat, percentile: nat)
    requires n > 0 && percentile <= 100
    ensures Floor(Position(n, percentile)) <= Ceil(Position(n, percentile)) < n
  {
    TimesGrows(n - 1, percentile, 100);
  }

  /** The source's weighted mean of two samples, in hundredths. */
  function Between(low: int, high: int, hundredths: nat): int
    requires hundredths <= 100
  {
    low * (100 - hundredths) + high * hundredths
  }

  lemma {:induction false} BetweenGrows(low: int, high: int, v: nat, w: nat)
    requires low <= high && v <= w <= 100
    ensures 100 * low <= Between(low, high, v) <= Between(low, high, w) <= 100 * high
  {
    var d: nat := high - low;
    assert Between(low, high, v) == 100 * low + d * v;
    assert Between(low, high, w) == 100 * low + d * w;
    TimesGrows(d, v, w);
    TimesGrows(d, w, 100);
  }

  function Interpolated(ordered: seq<int>, percentile: nat): int
    requires ordered != [] && percentile <= 100
  {
    var position := Position(|ordered|, percentile);
    PositionInRange(|ordered|, percentile);
    if Floor(position) == Ceil(position) then 100 * ordered[Floor(position)]
    else Between(ordered[Floor(position)], ordered[Ceil(position)], position % 100)
  }

  /** A percentile lies between the two samples around its position. */
  lemma {:induction false} LiesBetweenNeighbours(ordered: seq<int>, p: nat)
    requires ordered != [] && Sorted(ordered) && p <= 100
    ensures
      var position := Position(|ordered|, p);
      && Floor(position) <= Ceil(position) < |ordered|
      && 100 * ordered[Floor(position)] <= Interpolated(ordered, p) <= 100 * ordered[Ceil(position)]
  {
    var position := Position(|ordered|, p);
    PositionInRange(|ordered|, p);
    BetweenGrows(ordered[Floor(position)], ordered[Ceil(position)], position % 100, position % 100);
  }

  /** It meets the extremes at 0 and 100. */
  lemma {:induction false} MeetsExtremes(ordered: seq<int>)
    requires ordered != []
    ensures Interpolated(ordered, 0) == 100 * ordered[0]
    ensures Interpolated(ordered, 100) == 100 * ordered[|ordered| - 1]
  {
    assert Floor(Position(|ordered|, 100)) == Ceil(Position(|ordered|, 100)) == |ordered| - 1;
  }

  /** A higher percentile is never a lower value, across segment boundaries as within one. */
  lemma {:induction false} GrowsWithPercentile(ordered: seq<int>, p: nat, q: nat)
    requires ordered != [] && Sorted(ordered) && p <= q <= 100
    ensures Interpolated(ordered, p) <= Interpolated(ordered, q)
  {
    var k, l := Position(|ordered|, p), Position(|ordered|, q);
    TimesGrows(|ordered| - 1, p, q);
    LiesBetweenNeighbours(ordered, p);
    LiesBetweenNeighbours(ordered, q);
    if Ceil(k) > Floor(l) {
      assert Floor(k) == Floor(l) && k % 100 <= l % 100;
      if k != l {
        SameSegment(ordered, p, q);
      }
    }
  }

  lemma {:induction false} SameSegment(ordered: seq<int>, p: nat, q: nat)
    requires ordered != [] && Sorted(ordered) && p <= q <= 100
    requires Floor(Position(|ordered|, p)) == Floor(Position(|ordered|, q))
    requires 0 < Position(|ordered|, p) % 100 <= Position(|ordered|, q) % 100
    ensures Interpolated(ordered, p) <= Interpolated(ordered, q)
  {
    var k, l := Position(|ordered|, p), Position(|ordered|, q);
    PositionInRange(|ordered|, p);
    BetweenGrows(ordered[Floor(k)], ordered[Ceil(k)], k % 100, l % 100);
  }

  // ---------------------------------------------------------------- the summary

  function Insert(x: int, s: seq<int>): (r: seq<int>)
    ensures multiset(r) == multiset(s) + multiset{x}
    ensures forall y :: y in r <==> y == x || y in s
  {
    if s == [] then [x]
    else if x <= s[0] then [x] + s
    else
      assert s == [s[0]] + s[1..];
      [s[0]] + Insert(x, s[1..])
  }

  function Sort(s: seq<int>): (r: seq<int>)
    ensures multiset(r) == multiset(s) && |r| == |s|
  {
    if s == [] then []
    else
      assert s == [s[0]] + s[1..];
      var r := Insert(s[0], Sort(s[1..]));
      assert |multiset(r)| == |multiset(s)|;
      r
  }

  lemma {:induction false} InsertSorted(x: int, s: seq<int>)
    requires Sorted(s)
    ensures Sorted(Insert(x, s))
  {
    if s != [] && x > s[0] {
      var rest := s[1..];
      InsertSorted(x, rest);
      FirstIsLeast(s);
      assert forall y :: y in Insert(x, rest) ==> s[0] <= y;
      ConsSorted(s[0], Insert(x, rest));
    }
  }

  lemma {:induction false} FirstIsLeast(s: seq<int>)
    requires Sorted(s) && s != []
    ensures forall y :: y in s[1..] ==> s[0] <= y
  {
  }

  lemma {:induction false} ConsSorted(x: int, s: seq<int>)
    requires Sorted(s) && forall y :: y in s ==> x <= y
    ensures Sorted([x] + s)
  {
    var all := [x] + s;
    forall i, j | 0 <= i <= j < |all|
      ensures all[i] <= all[j]
    {
      assert all[j] == x || all[j] in s;
      if i > 0 { assert s[i - 1] <= s[j - 1]; }
    }
  }

  lemma {:induction false} SortIsSorted(s: seq<int>)
    ensures Sorted(Sort(s))
  {
    if s != [] {
      SortIsSorted(s[1..]);
      InsertSorted(s[0], Sort(s[1..]));
    }
  }

  lemma {:induction false} SameMembers(s: seq<int>, t: seq<int>, x: int)
    requires multiset(s) == multiset(t)
    ensures x in s <==> x in t
  {
    assert x in multiset(s) <==> x in multiset(t);
  }

  lemma {:induction false} SameLeast(s: seq<int>, t: seq<int>)
    requires s != [] && t != [] && Sorted(s) && Sorted(t) && multiset(s) == multiset(t)
    ensures s[0] == t[0]
  {
    SameMembers(s, t, s[0]);
    SameMembers(s, t, t[0]);
  }

  lemma {:induction false} TailMultiset(s: seq<int>)
    requires s != []
    ensures multiset(s[1..]) == multiset(s) - multiset{s[0]}
  {
    assert s == [s[0]] + s[1..];
  }

  lemma {:induction false} SortedIsDetermined(s: seq<int>, t: seq<int>)
    requires Sorted(s) && Sorted(t) && multiset(s) == multiset(t)
    ensures s == t
  {
    assert |multiset(s)| == |s| && |multiset(t)| == |t|;
    if s != [] {
      SameLeast(s, t);
      TailMultiset(s);
      TailMultiset(t);
      SortedIsDetermined(s[1..], t[1..]);
      assert s == [s[0]] + s[1..] && t == [t[0]] + t[1..];
    }
  }

  function Sum(s: seq<int>): int {
    if s == [] then 0 else Sum(s[..|s| - 1]) + s[|s| - 1]
  }

  lemma {:induction false} SumBounds(s: seq<int>, low: int, high: int)
    requires forall i :: 0 <= i < |s| ==> low <= s[i] <= high
    ensures |s| * low <= Sum(s) <= |s| * high
  {
    if s != [] {
      SumBounds(s[..|s| - 1], low, high);
    }
  }

  function Summarize(values: seq<int>): Option<Summary> {
    if values == [] then None
    else
      var s := Sort(values);
      Some(Summary(s[0], Sum(s), |s|, Interpolated(s, 50), Interpolated(s, 95), Interpolated(s, 99), s[|s| - 1]))
  }

  /** In every summary min <= p50 <= p95 <= p99 <= max, the mean lies between the extremes, and the
      extremes are samples that bound every sample. */
  lemma {:induction false} SummaryIsOrdered(values: seq<int>)
    requires values != []
    ensures
      var s := Summarize(values).value;
      && 100 * s.min <= s.p50 <= s.p95 <= s.p99 <= 100 * s.max
      && s.count * s.min <= s.total <= s.count * s.max
      && s.min in values && s.max in values && forall x :: x in values ==> s.min <= x <= s.max
  {
    var ordered := Sort(values);
    SortIsSorted(values);
    PercentilesInOrder(ordered);
    SumBounds(ordered, ordered[0], ordered[|ordered| - 1]);
    forall x
      ensures x in values <==> x in ordered
    {
      SameMembers(values, ordered, x);
    }
  }

  lemma {:induction false} PercentilesInOrder(ordered: seq<int>)
    requires ordered != [] && Sorted(ordered)
    ensures 100 * ordered[0] <= Interpolated(ordered, 50) <= Interpolated(ordered, 95)
    ensures Interpolated(ordered, 95) <= Interpolated(ordered, 99) <= 100 * ordered[|ordered| - 1]
  {
    MeetsExtremes(ordered);
    GrowsWithPercentile(ordered, 0, 50);
    GrowsWithPercentile(ordered, 50, 95);
    GrowsWithPercentile(ordered, 95, 99);
    GrowsWithPercentile(ordered, 99, 100);
  }

  /** The order in which the samples were taken does not show in the summary. */
  lemma {:induction false} SummaryIgnoresOrder(values: seq<int>, values': seq<int>)
    requires multiset(values) == multiset(values')
    ensures Summarize(values) == Summarize(values')
  {
    assert |multiset(values)| == |values| && |multiset(values')| == |values'|;
    SortIsSorted(values);
    SortIsSorted(values');
    SortedIsDetermined(Sort(values), Sort(values'));
  }
}
