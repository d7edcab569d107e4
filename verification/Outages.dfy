/** Downtime of a service in a window, from overlapping outage records (app.py:
    service_availability_pct). Time is counted in whole units. */
module Outages {
  import opened Outcomes
  import opened Basics
  import Sorting

  /** Without an end the outage still goes on. */
  datatype Outage = Outage(startedAt: int, endedAt: Option<int>)

  datatype Interval = Interval(start: int, end: int)

  predicate IsDown(o: Outage, t: int) {
    o.startedAt <= t && (o.endedAt.None? || t < o.endedAt.value)
  }

  predicate SomeDown(outages: seq<Outage>, t: int) {
    exists i :: 0 <= i < |outages| && IsDown(outages[i], t)
  }

  /** The time units of the window in which at least one outage is in effect. */
  function DownUnits(outages: seq<Outage>, from: int, to: int): set<int> {
    set t | from <= t < to && SomeDown(outages, t)
  }

  predicate Covers(v: Interval, t: int) { v.start <= t < v.end }

  predicate Covered(vs: seq<Interval>, t: int) {
    exists i :: 0 <= i < |vs| && Covers(vs[i], t)
  }

  predicate Relevant(o: Outage, from: int, to: int) {
    (o.endedAt.None? || o.endedAt.value > from) && o.startedAt < to
  }

  function Clip(o: Outage, from: int, to: int): Interval {
    Interval(Max(o.startedAt, from), Min(if o.endedAt.Some? then o.endedAt.value else to, to))
  }

  method ClipAll(outages: seq<Outage>, from: int, to: int) returns (vs: seq<Interval>)
    ensures forall i :: 0 <= i < |vs| ==> from <= vs[i].start < vs[i].end <= to
    ensures forall t :: from <= t < to ==> (Covered(vs, t) <==> SomeDown(outages, t))
  {
    vs := [];
    for k := 0 to |outages|
      invariant forall i :: 0 <= i < |vs| ==> from <= vs[i].start < vs[i].end <= to
      invariant forall t :: from <= t < to ==> (Covered(vs, t) <==> SomeDown(outages[..k], t))
    {
      var o := outages[k];
      ghost var before := vs;
      if Relevant(o, from, to) {
        var v := Clip(o, from, to);
        if v.end > v.start {
          vs := vs + [v];
        }
      }
      forall t | from <= t < to ensures Covered(vs, t) <==> SomeDown(outages[..k + 1], t) {
        SomeDownSnoc(outages[..k], o, t);
        assert outages[..k + 1] == outages[..k] + [o];
        if vs != before {
          CoveredSnoc(before, vs[|before|], t);
        }
      }
    }
    assert outages[..|outages|] == outages;
  }

  lemma SomeDownSnoc(outages: seq<Outage>, o: Outage, t: int)
    ensures SomeDown(outages + [o], t) <==> SomeDown(outages, t) || IsDown(o, t)
  {
    var all := outages + [o];
    assert all[|outages|] == o && forall i :: 0 <= i < |outages| ==> all[i] == outages[i];
  }

  lemma CoveredSnoc(vs: seq<Interval>, v: Interval, t: int)
    ensures Covered(vs + [v], t) <==> Covered(vs, t) || Covers(v, t)
  {
    var all := vs + [v];
    assert all[|vs|] == v && forall i :: 0 <= i < |vs| ==> all[i] == vs[i];
  }

  /** The order of Python tuples. */
  predicate IntervalLeq(a: Interval, b: Interval) {
    a.start < b.start || (a.start == b.start && a.end <= b.end)
  }

  /** Disjoint, in order, not even touching. */
  predicate Separated(vs: seq<Interval>) {
    && (forall i :: 0 <= i < |vs| ==> vs[i].start < vs[i].end)
    && (forall i, j :: 0 <= i < j < |vs| ==> vs[i].end < vs[j].start)
  }

  method MergeSorted(vs: seq<Interval>) returns (merged: seq<Interval>)
    requires Sorting.SortedBy(IntervalLeq, vs)
    requires forall i :: 0 <= i < |vs| ==> vs[i].start < vs[i].end
    ensures Separated(merged)
    ensures forall t :: Covered(merged, t) <==> Covered(vs, t)
  {
    merged := [];
    for k := 0 to |vs|
      invariant Separated(merged)
      invariant forall t :: Covered(merged, t) <==> Covered(vs[..k], t)
      invariant merged == [] <==> k == 0
      invariant k > 0 ==> merged[|merged| - 1].start <= vs[k - 1].start
    {
      var v := vs[k];
      ghost var before := merged;
      if merged != [] && v.start <= merged[|merged| - 1].end {
        var last := merged[|merged| - 1];
        merged := merged[..|merged| - 1] + [Interval(last.start, Max(last.end, v.end))];
        assert before == before[..|before| - 1] + [last];
      } else {
        merged := merged + [v];
      }
      forall t ensures Covered(merged, t) <==> Covered(vs[..k + 1], t) {
        assert vs[..k + 1] == vs[..k] + [v];
        CoveredSnoc(vs[..k], v, t);
        CoveredSnoc(before, v, t);
        if |merged| == |before| {
          var n := |before| - 1;
          CoveredSnoc(before[..n], before[n], t);
          CoveredSnoc(before[..n], merged[n], t);
        }
      }
    }
    assert vs[..|vs|] == vs;
  }

  function TotalLength(vs: seq<Interval>): int {
    if vs == [] then 0 else TotalLength(vs[..|vs| - 1]) + (vs[|vs| - 1].end - vs[|vs| - 1].start)
  }

  function Units(vs: seq<Interval>, from: int, to: int): set<int> {
    set t | from <= t < to && Covered(vs, t)
  }

  function Range(a: int, b: int): set<int> {
    set t | a <= t < b && Covers(Interval(a, b), t)
  }

  lemma {:induction false} RangeSize(a: int, b: int)
    requires a <= b
    ensures |Range(a, b)| == b - a
    decreases b - a
  {
    if a < b {
      RangeSize(a + 1, b);
      assert Range(a, b) == {a} + Range(a + 1, b);
    } else {
      assert Range(a, b) == {};
    }
  }

  lemma {:induction false} LengthsCountUnits(vs: seq<Interval>, from: int, to: int)
    requires Separated(vs) && forall i :: 0 <= i < |vs| ==> from <= vs[i].start && vs[i].end <= to
    ensures TotalLength(vs) == |Units(vs, from, to)|
    decreases |vs|
  {
    if vs == [] {
      assert Units(vs, from, to) == {};
    } else {
      var n := |vs| - 1;
      var init, last := vs[..n], vs[n];
      assert vs == init + [last];
      LengthsCountUnits(init, from, to);
      UnitsSnoc(init, last, from, to);
    }
  }

  /** A later interval adds exactly its own units. */
  lemma UnitsSnoc(init: seq<Interval>, last: Interval, from: int, to: int)
    requires from <= last.start <= last.end <= to
    requires forall i :: 0 <= i < |init| ==> init[i].end < last.start
    ensures |Units(init + [last], from, to)| == |Units(init, from, to)| + (last.end - last.start)
  {
    RangeSize(last.start, last.end);
    assert Units(init, from, to) !! Range(last.start, last.end);
    forall t ensures t in Units(init + [last], from, to) <==> t in Units(init, from, to) + Range(last.start, last.end) {
      CoveredSnoc(init, last, t);
    }
    assert Units(init + [last], from, to) == Units(init, from, to) + Range(last.start, last.end);
  }

  method SumLengths(vs: seq<Interval>) returns (total: int)
    ensures total == TotalLength(vs)
  {
    total := 0;
    for k := 0 to |vs|
      invariant total == TotalLength(vs[..k])
    {
      assert vs[..k + 1][..k] == vs[..k];
      total := total + (vs[k].end - vs[k].start);
    }
    assert vs[..|vs|] == vs;
  }

  /** Clip, sort, merge and add up: the result is the number of distinct time units of the window in which
      some outage is in effect, however the outages overlap, nest or touch. */
  method Downtime(outages: seq<Outage>, from: int, to: int) returns (down: int)
    ensures down == |DownUnits(outages, from, to)|
    ensures 0 <= down <= Max(0, to - from)
  {
    var clipped := ClipAll(outages, from, to);
    var sorted := Sorting.Sort(IntervalLeq, clipped);
    Sorting.SortSorts(IntervalLeq, clipped);
    SortedFacts(clipped, sorted, from, to);
    var merged := MergeSorted(sorted);
    MergedInside(merged, sorted, from, to);
    LengthsCountUnits(merged, from, to);
    forall t ensures t in Units(merged, from, to) <==> t in DownUnits(outages, from, to) {
    }
    assert Units(merged, from, to) == DownUnits(outages, from, to);
    WithinWindow(outages, from, to);
    down := SumLengths(merged);
  }

  lemma SortedFacts(clipped: seq<Interval>, sorted: seq<Interval>, from: int, to: int)
    requires multiset(sorted) == multiset(clipped)
    requires forall i :: 0 <= i < |clipped| ==> from <= clipped[i].start < clipped[i].end <= to
    ensures forall i :: 0 <= i < |sorted| ==> from <= sorted[i].start < sorted[i].end <= to
    ensures forall t :: Covered(sorted, t) <==> Covered(clipped, t)
  {
    forall v ensures v in sorted <==> v in clipped {
      assert v in sorted <==> v in multiset(sorted);
      assert v in clipped <==> v in multiset(clipped);
    }
    forall i | 0 <= i < |sorted| ensures from <= sorted[i].start < sorted[i].end <= to {
      assert sorted[i] in clipped;
    }
    forall t ensures Covered(sorted, t) <==> Covered(clipped, t) {
      if Covered(sorted, t) {
        var i :| 0 <= i < |sorted| && Covers(sorted[i], t);
        assert sorted[i] in clipped;
      }
      if Covered(clipped, t) {
        var i :| 0 <= i < |clipped| && Covers(clipped[i], t);
        assert clipped[i] in sorted;
      }
    }
  }

  lemma MergedInside(merged: seq<Interval>, vs: seq<Interval>, from: int, to: int)
    requires Separated(merged) && forall t :: Covered(merged, t) <==> Covered(vs, t)
    requires forall i :: 0 <= i < |vs| ==> from <= vs[i].start < vs[i].end <= to
    ensures forall i :: 0 <= i < |merged| ==> from <= merged[i].start && merged[i].end <= to
  {
    forall i | 0 <= i < |merged| ensures from <= merged[i].start && merged[i].end <= to {
      assert Covers(merged[i], merged[i].start) && Covers(merged[i], merged[i].end - 1);
      assert Covered(vs, merged[i].start) && Covered(vs, merged[i].end - 1);
    }
  }

  lemma WithinWindow(outages: seq<Outage>, from: int, to: int)
    ensures |DownUnits(outages, from, to)| <= Max(0, to - from)
  {
    var units := DownUnits(outages, from, to);
    if from <= to {
      RangeSize(from, to);
      assert units <= Range(from, to);
      assert Range(from, to) == units + (Range(from, to) - units);
    } else {
      assert units == {};
    }
  }

  /** To the nearest integer, ties to the even one. */
  function RoundHalfEven(x: real): int {
    var below := x.Floor;
    var rest := x - below as real;
    if rest < 0.5 || (rest == 0.5 && below % 2 == 0) then below else below + 1
  }

  /** Availability in percent, rounded to three places: in thousandths of a percent. */
  function AvailabilityThousandths(down: int, total: int): int {
    if total == 0 then 100000 else RoundHalfEven(100000.0 * (1.0 - down as real / total as real))
  }

  /** The nearest integer, and of two equally near ones the even one. */
  lemma RoundsToNearest(x: real)
    ensures var r := RoundHalfEven(x) as real;
      -0.5 <= r - x <= 0.5 && (r - x == 0.5 || r - x == -0.5 ==> RoundHalfEven(x) % 2 == 0)
  {
  }

  lemma RoundBetween(x: real, low: int, high: int)
    requires low as real <= x <= high as real
    ensures low <= RoundHalfEven(x) <= high
  {
  }

  /** A full value below an even bound: rounding reaches the bound from half a unit below it. */
  lemma RoundsUpTo(x: real, top: int)
    requires x <= top as real && top % 2 == 0
    ensures RoundHalfEven(x) == top <==> x >= top as real - 0.5
  {
  }

  /** Every window gives an availability between 0 and 100 percent. It is reported as 100 exactly when at most
      one unit in 200000 was down, not only when none was. */
  lemma AvailabilityBounds(outages: seq<Outage>, from: int, to: int)
    ensures var down := |DownUnits(outages, from, to)|;
      var shown := AvailabilityThousandths(down, to - from);
      0 <= shown <= 100000 && (shown == 100000 <==> 200000 * down <= Max(0, to - from))
  {
    var down, total := |DownUnits(outages, from, to)|, to - from;
    WithinWindow(outages, from, to);
    if total > 0 {
      var ratio := down as real / total as real;
      RatioBounds(down, total);
      var x := 100000.0 * (1.0 - ratio);
      RoundBetween(x, 0, 100000);
      RoundsUpTo(x, 100000);
    } else if total < 0 {
      assert down as real / total as real == 0.0;
      RoundBetween(100000.0, 100000, 100000);
    }
  }

  lemma RatioBounds(down: int, total: int)
    requires 0 <= down <= total && total > 0
    ensures var ratio := down as real / total as real;
      0.0 <= ratio <= 1.0 && (200000.0 * ratio <= 1.0 <==> 200000 * down <= total)
  {
    var d, t := down as real, total as real;
    QuotientTimes(d, t);
    RatioOrder(d / t, d, t);
    assert 200000.0 * d == (200000 * down) as real;
  }

  lemma RatioOrder(ratio: real, d: real, t: real)
    requires ratio * t == d && 0.0 <= d <= t && t > 0.0
    ensures 0.0 <= ratio <= 1.0 && (200000.0 * ratio <= 1.0 <==> 200000.0 * d <= t)
  {
    ProductRegroups(200000.0, ratio, t);
    ScaleKeepsOrder(0.0, ratio, t, 0.0, d);
    ScaleKeepsOrder(ratio, 1.0, t, d, t);
    ScaleKeepsOrder(200000.0 * ratio, 1.0, t, 200000.0 * d, t);
  }

  lemma QuotientTimes(d: real, t: real)
    requires t != 0.0
    ensures (d / t) * t == d
  {
  }

  lemma ProductRegroups(a: real, b: real, c: real)
    ensures (a * b) * c == a * (b * c)
  {
  }

  lemma ScaleKeepsOrder(x: real, y: real, t: real, xt: real, yt: real)
    requires t > 0.0 && xt == x * t && yt == y * t
    ensures x <= y <==> xt <= yt
  {
    if x <= y { PositiveProduct(y - x, t); } else { PositiveProduct(x - y, t); }
    assert (y - x) * t == yt - xt;
  }

  lemma PositiveProduct(a: real, t: real)
    requires a >= 0.0 && t > 0.0
    ensures a * t >= 0.0 && (a > 0.0 ==> a * t > 0.0)
  {
  }

  /** One second down in 200000 is shown as 100 percent. */
  lemma ShortOutageIsRoundedAway()
    ensures var outages := [Outage(0, Some(1))];
      DownUnits(outages, 0, 200000) == {0} && AvailabilityThousandths(|DownUnits(outages, 0, 200000)|, 200000) == 100000
  {
    var outages := [Outage(0, Some(1))];
    forall t ensures t in DownUnits(outages, 0, 200000) <==> t == 0 {
      assert IsDown(outages[0], t) <==> t == 0;
    }
    assert DownUnits(outages, 0, 200000) == {0};
    AvailabilityBounds(outages, 0, 200000);
  }
}
