/** What the page derives from the filtered series: the difference curve between
    exactly two series (`updateComparisonDiff`, main.js:515-546), the summary
    statistics (`updateStats`, main.js:441-481) and the jump events of one series
    (`renderEvents`, main.js:409-434). */
module Derived {
  import opened Wrappers
  import opened Seqs
  import opened Points
  import opened Store

  function Abs(x: real): (r: real)
    ensures r >= 0.0 && (r == x || r == -x)
  {
    if x < 0.0 then -x else x
  }

  // ---------------------------------------------------------------- difference curve

  /** A point of the difference curve. Its time is the mean of two integer
      timestamps, so it may fall on a half millisecond. */
  datatype DiffPoint = DiffPoint(time: real, value: real)

  /** The difference of the i-th points of two series. */
  function DiffAt(p: Point, q: Point): DiffPoint
  {
    DiffPoint((p.time + q.time) as real / 2.0, Abs(p.value - q.value))
  }

  function Min(a: nat, b: nat): nat
  {
    if a <= b then a else b
  }

  /** The two series paired index by index, up to the shorter one. */
  function PairwiseDiff(p1: seq<Point>, p2: seq<Point>): (r: seq<DiffPoint>)
    ensures |r| == Min(|p1|, |p2|)
    ensures forall i :: 0 <= i < |r| ==> r[i] == DiffAt(p1[i], p2[i])
  {
    seq(Min(|p1|, |p2|), i requires 0 <= i < Min(|p1|, |p2|) => DiffAt(p1[i], p2[i]))
  }

  /** `updateComparisonDiff` without the chart: a difference curve exactly when the
      store holds two series, computed by the loop of main.js:531-535. */
  method ComparisonDiff(ss: seq<Series>) returns (diff: Option<seq<DiffPoint>>)
    ensures diff.Some? <==> |ss| == 2
    ensures diff.Some? ==> diff.value == PairwiseDiff(ss[0].pointsFiltered, ss[1].pointsFiltered)
  {
    if |ss| != 2 {
      return None;
    }
    var p1, p2 := ss[0].pointsFiltered, ss[1].pointsFiltered;
    var len := if |p1| <= |p2| then |p1| else |p2|;
    var acc: seq<DiffPoint> := [];
    var i := 0;
    while i < len
      invariant 0 <= i <= len
      invariant acc == PairwiseDiff(p1[..i], p2[..i])
    {
      acc := acc + [DiffPoint((p1[i].time + p2[i].time) as real / 2.0, Abs(p1[i].value - p2[i].value))];
      i := i + 1;
    }
    assert p1[..len] == p1[..Min(|p1|, |p2|)] && p2[..len] == p2[..Min(|p1|, |p2|)];
    PairwiseDiffTruncate(p1, p2);
    return Some(acc);
  }

  /** Points past the end of the shorter series play no part. */
  lemma PairwiseDiffTruncate(p1: seq<Point>, p2: seq<Point>)
    ensures var n := Min(|p1|, |p2|);
      PairwiseDiff(p1, p2) == PairwiseDiff(p1[..n], p2[..n])
  {
  }

  /** Swapping the two series does not change the curve, and its values are never
      negative. */
  lemma PairwiseDiffSymmetric(p1: seq<Point>, p2: seq<Point>)
    ensures PairwiseDiff(p1, p2) == PairwiseDiff(p2, p1)
    ensures forall i :: 0 <= i < |PairwiseDiff(p1, p2)| ==> PairwiseDiff(p1, p2)[i].value >= 0.0
  {
    var a, b := PairwiseDiff(p1, p2), PairwiseDiff(p2, p1);
    forall i | 0 <= i < |a| ensures a[i] == b[i] {
      assert Abs(p1[i].value - p2[i].value) == Abs(p2[i].value - p1[i].value);
    }
  }

  /** A series compared with itself: the curve follows its timestamps at value 0. */
  lemma PairwiseDiffSelf(p: seq<Point>)
    ensures PairwiseDiff(p, p) == seq(|p|, i requires 0 <= i < |p| => DiffPoint(p[i].time as real, 0.0))
  {
  }

  /** [[1000, 5], [2000, 7]] against [[1200, 9], [2200, 3]] gives [[1100, 4], [2100, 4]]. */
  lemma PairwiseDiffExample()
    ensures PairwiseDiff([Point(1000, 5.0), Point(2000, 7.0)], [Point(1200, 9.0), Point(2200, 3.0)])
      == [DiffPoint(1100.0, 4.0), DiffPoint(2100.0, 4.0)]
  {
    var r := PairwiseDiff([Point(1000, 5.0), Point(2000, 7.0)], [Point(1200, 9.0), Point(2200, 3.0)]);
    assert r[0] == DiffPoint(1100.0, 4.0) && r[1] == DiffPoint(2100.0, 4.0);
  }

  // ---------------------------------------------------------------- statistics

  /** The summary line of the metrics panel. */
  datatype Summary = Summary(count: nat, min: real, max: real, mean: real, first: int, last: int)

  /** The number of series and, when any point is in view, the summary. */
  datatype Stats = Stats(seriesCount: nat, summary: Option<Summary>)

  /** `state.series.flatMap(s => s.pointsFiltered)`. */
  function FilteredPoints(ss: seq<Series>): (r: seq<Point>)
    ensures |r| == 0 <==> forall k :: 0 <= k < |ss| ==> ss[k].pointsFiltered == []
  {
    if ss == [] then [] else ss[0].pointsFiltered + FilteredPoints(ss[1..])
  }

  /** Every filtered point of every series is in the flattened list, and nothing else. */
  lemma {:induction false} FilteredPointsMembers(ss: seq<Series>, p: Point)
    ensures p in FilteredPoints(ss) <==> exists k :: 0 <= k < |ss| && p in ss[k].pointsFiltered
  {
    if ss != [] {
      FilteredPointsMembers(ss[1..], p);
      if p in FilteredPoints(ss[1..]) {
        var k :| 0 <= k < |ss[1..]| && p in ss[1..][k].pointsFiltered;
        assert p in ss[k + 1].pointsFiltered;
      }
      if exists k :: 0 <= k < |ss| && p in ss[k].pointsFiltered {
        var k :| 0 <= k < |ss| && p in ss[k].pointsFiltered;
        if k > 0 {
          assert ss[1..][k - 1] == ss[k];
        }
      }
    }
  }

  function Sum(pts: seq<Point>): real
  {
    if pts == [] then 0.0 else pts[0].value + Sum(pts[1..])
  }

  /** `Math.min(...values)`. */
  function MinValue(pts: seq<Point>): (m: real)
    requires pts != []
    ensures exists i :: 0 <= i < |pts| && pts[i].value == m
    ensures forall i :: 0 <= i < |pts| ==> m <= pts[i].value
  {
    if |pts| == 1 then pts[0].value
    else
      var rest := MinValue(pts[1..]);
      assert forall i :: 1 <= i < |pts| ==> pts[i] == pts[1..][i - 1];
      if pts[0].value <= rest then pts[0].value else rest
  }

  /** `Math.max(...values)`. */
  function MaxValue(pts: seq<Point>): (m: real)
    requires pts != []
    ensures exists i :: 0 <= i < |pts| && pts[i].value == m
    ensures forall i :: 0 <= i < |pts| ==> pts[i].value <= m
  {
    if |pts| == 1 then pts[0].value
    else
      var rest := MaxValue(pts[1..]);
      assert forall i :: 1 <= i < |pts| ==> pts[i] == pts[1..][i - 1];
      if pts[0].value >= rest then pts[0].value else rest
  }

  /** The summary of a non-empty list of points in view (main.js:464-477). */
  function SummaryOf(pts: seq<Point>): Summary
    requires pts != []
  {
    Summary(
      |pts|,
      MinValue(pts),
      MaxValue(pts),
      Sum(pts) / |pts| as real,
      MinOf(Times(pts)),
      MaxOf(Times(pts)))
  }

  /** `updateStats` without the formatting. */
  function StatsOf(ss: seq<Series>): Stats
  {
    var pts := FilteredPoints(ss);
    Stats(|ss|, if pts == [] then None else Some(SummaryOf(pts)))
  }

  /** The sum of n values lies between n times their least and n times their greatest. */
  lemma {:induction false} SumBounds(pts: seq<Point>, lo: real, hi: real)
    requires forall i :: 0 <= i < |pts| ==> lo <= pts[i].value <= hi
    ensures |pts| as real * lo <= Sum(pts) <= |pts| as real * hi
  {
    if pts != [] {
      assert forall i :: 0 <= i < |pts| - 1 ==> pts[1..][i] == pts[i + 1];
      SumBounds(pts[1..], lo, hi);
    }
  }

  /** The summary is present exactly when some series has a point in view, and it
      summarises all of the points in view. */
  lemma StatsPresence(ss: seq<Series>)
    ensures StatsOf(ss).seriesCount == |ss|
    ensures StatsOf(ss).summary.None? <==> forall k :: 0 <= k < |ss| ==> ss[k].pointsFiltered == []
    ensures StatsOf(ss).summary.Some? ==> StatsOf(ss).summary.value == SummaryOf(FilteredPoints(ss))
  {
  }

  /** The count is the number of points; the least and greatest values are values of
      points and bound all of them, and the mean lies between them. */
  lemma SummaryValues(pts: seq<Point>)
    requires pts != []
    ensures var m := SummaryOf(pts);
      && m.count == |pts|
      && (exists i :: 0 <= i < |pts| && pts[i].value == m.min)
      && (exists i :: 0 <= i < |pts| && pts[i].value == m.max)
      && (forall i :: 0 <= i < |pts| ==> m.min <= pts[i].value <= m.max)
      && m.min <= m.mean <= m.max
  {
    var lo, hi := MinValue(pts), MaxValue(pts);
    var m := SummaryOf(pts);
    assert m.min == lo && m.max == hi && m.mean == Sum(pts) / |pts| as real;
    MeanBounds(pts, lo, hi);
  }

  /** The mean of values between lo and hi is between lo and hi. */
  lemma MeanBounds(pts: seq<Point>, lo: real, hi: real)
    requires pts != []
    requires forall i :: 0 <= i < |pts| ==> lo <= pts[i].value <= hi
    ensures lo <= Sum(pts) / |pts| as real <= hi
  {
    var n, sum := |pts|, Sum(pts);
    SumBounds(pts, lo, hi);
    MeanBetween(sum, n, lo, hi);
  }

  lemma MeanBetween(sum: real, n: nat, lo: real, hi: real)
    requires n > 0 && n as real * lo <= sum <= n as real * hi
    ensures lo <= sum / n as real <= hi
  {
  }

  /** The first and last times are times of points and bound all of them. */
  lemma SummaryTimes(pts: seq<Point>)
    requires pts != []
    ensures var m := SummaryOf(pts);
      && m.first in Times(pts) && m.last in Times(pts)
      && (forall i :: 0 <= i < |pts| ==> m.first <= pts[i].time <= m.last)
  {
    var times := Times(pts);
    var lo, hi := MinOf(times), MaxOf(times);
    assert SummaryOf(pts).first == lo && SummaryOf(pts).last == hi;
    forall i | 0 <= i < |pts| ensures lo <= pts[i].time <= hi {
      assert times[i] in times;
    }
  }

  // ---------------------------------------------------------------- events

  /** A line of the event log: the series, the time of the later point, and the
      values before and after the jump. */
  datatype Event = Event(seriesName: string, color: Color, time: int, before: real, after: real)

  /** The test of main.js:420: a change of more than 5% of the previous value,
      judged against the signed previous value, never after a zero. */
  predicate IsJump(prev: real, curr: real)
  {
    prev != 0.0 && Abs(curr - prev) > prev * 0.05
  }

  /** There is a jump into the i-th filtered point of the series. */
  predicate JumpAt(s: Series, i: int)
  {
    1 <= i < |s.pointsFiltered| && IsJump(s.pointsFiltered[i - 1].value, s.pointsFiltered[i].value)
  }

  function EventAt(s: Series, i: nat): Event
    requires 1 <= i < |s.pointsFiltered|
  {
    var pts := s.pointsFiltered;
    Event(s.name, s.color, pts[i].time, pts[i - 1].value, pts[i].value)
  }

  /** The events among the first n filtered points of the series, in order. */
  function JumpEvents(s: Series, n: nat): (r: seq<Event>)
    requires n <= |s.pointsFiltered|
    ensures |r| <= if n == 0 then 0 else n - 1
  {
    if n <= 1 then []
    else JumpEvents(s, n - 1) + (if JumpAt(s, n - 1) then [EventAt(s, n - 1)] else [])
  }

  /** The events of a whole series. */
  function EventsOf(s: Series): seq<Event>
  {
    JumpEvents(s, |s.pointsFiltered|)
  }

  /** `renderEvents` without the page: the loop of main.js:415-433. */
  method RenderEvents(s: Series) returns (events: seq<Event>)
    ensures events == EventsOf(s)
  {
    var pts := s.pointsFiltered;
    events := [];
    var i := 1;
    while i < |pts|
      invariant 1 <= i && (i <= |pts| || i == 1)
      invariant events == JumpEvents(s, if |pts| == 0 then 0 else i)
    {
      var prev := pts[i - 1].value;
      var curr := pts[i].value;
      var t := pts[i].time;
      if prev != 0.0 && Abs(curr - prev) > prev * 0.05 {
        events := events + [Event(s.name, s.color, t, prev, curr)];
      }
      i := i + 1;
    }
  }

  /** An event is logged for exactly the points that jump away from their
      predecessor, and only for them. */
  lemma {:induction false} JumpEventsSpec(s: Series, n: nat)
    requires n <= |s.pointsFiltered|
    ensures forall e :: e in JumpEvents(s, n) <==> exists i :: 1 <= i < n && JumpAt(s, i) && e == EventAt(s, i)
  {
    if n > 1 {
      JumpEventsSpec(s, n - 1);
      var r := JumpEvents(s, n);
      forall e ensures e in r <==> exists i :: 1 <= i < n && JumpAt(s, i) && e == EventAt(s, i) {
        if e in JumpEvents(s, n - 1) {
          var i :| 1 <= i < n - 1 && JumpAt(s, i) && e == EventAt(s, i);
        }
        if exists i :: 1 <= i < n && JumpAt(s, i) && e == EventAt(s, i) {
          var i :| 1 <= i < n && JumpAt(s, i) && e == EventAt(s, i);
          if i < n - 1 {
            assert e in JumpEvents(s, n - 1);
          }
        }
      }
    }
  }

  /** The events are those of the jumping points, one event per point and in point
      order: `idx` lists the indexes of the jumps, increasing, and event k is the
      event of point idx[k]. */
  lemma {:induction false} JumpEventsIndexed(s: Series, n: nat) returns (idx: seq<nat>)
    requires n <= |s.pointsFiltered|
    ensures |idx| == |JumpEvents(s, n)|
    ensures forall a, b :: 0 <= a < b < |idx| ==> idx[a] < idx[b]
    ensures forall i: nat :: i in idx <==> 1 <= i < n && JumpAt(s, i)
    ensures forall k :: 0 <= k < |idx| ==> 1 <= idx[k] < n && JumpEvents(s, n)[k] == EventAt(s, idx[k])
  {
    if n <= 1 {
      idx := [];
    } else {
      var m := n - 1;
      var prior := JumpEventsIndexed(s, m);
      var init := JumpEvents(s, m);
      assert m + 1 == n;
      if JumpAt(s, m) {
        idx := prior + [m];
        assert JumpEvents(s, n) == init + [EventAt(s, m)];
        forall k | 0 <= k < |idx|
          ensures 1 <= idx[k] < n && JumpEvents(s, n)[k] == EventAt(s, idx[k])
        {
          if k < |prior| {
            assert idx[k] == prior[k] && JumpEvents(s, n)[k] == init[k];
          }
        }
      } else {
        idx := prior;
        assert JumpEvents(s, n) == init;
      }
    }
  }

  predicate InTimeOrder(events: seq<Event>)
  {
    forall a, b :: 0 <= a < b < |events| ==> events[a].time <= events[b].time
  }

  /** Events come out in time order whenever the series' points are. */
  lemma {:induction false} JumpEventsOrdered(s: Series, n: nat)
    requires n <= |s.pointsFiltered| && Sorted(s.pointsFiltered)
    ensures InTimeOrder(JumpEvents(s, n))
    ensures forall e :: e in JumpEvents(s, n) ==> n >= 2 && e.time <= s.pointsFiltered[n - 1].time
  {
    if n > 1 {
      JumpEventsOrdered(s, n - 1);
      var init := JumpEvents(s, n - 1);
      var pts := s.pointsFiltered;
      assert pts[n - 2].time <= pts[n - 1].time;
      forall e | e in init ensures e.time <= pts[n - 1].time {
        assert e.time <= pts[n - 2].time;
      }
      var r := JumpEvents(s, n);
      assert r == init + (if JumpAt(s, n - 1) then [EventAt(s, n - 1)] else []);
      forall a, b | 0 <= a < b < |r| ensures r[a].time <= r[b].time {
        if b >= |init| {
          assert r[a] in init && r[b] == EventAt(s, n - 1);
        } else {
          assert r[a] == init[a] && r[b] == init[b];
        }
      }
    }
  }

  /** Judged against a negative previous value every step is a jump, whatever its
      size; against a positive one, a jump is a step outside [0.95 prev, 1.05 prev]. */
  lemma JumpThresholds(prev: real, curr: real)
    ensures prev < 0.0 ==> IsJump(prev, curr)
    ensures prev > 0.0 ==> (IsJump(prev, curr) <==> curr > 1.05 * prev || curr < 0.95 * prev)
    ensures prev == 0.0 ==> !IsJump(prev, curr)
  {
  }

  /** [[0, 100], [1000, 104], [2000, 110]]: 104 is within 5% of 100, 110 is not
      within 5% of 104, so one event is logged, at 2000. */
  lemma EventsExample(name: string, color: Color)
    ensures var pts := [Point(0, 100.0), Point(1000, 104.0), Point(2000, 110.0)];
      EventsOf(Series(0, name, color, pts, pts)) == [Event(name, color, 2000, 104.0, 110.0)]
  {
    var pts := [Point(0, 100.0), Point(1000, 104.0), Point(2000, 110.0)];
    var s := Series(0, name, color, pts, pts);
    assert !JumpAt(s, 1);
    assert JumpAt(s, 2);
    assert JumpEvents(s, 2) == [];
  }
}
