/** The time-range filter of `applyRangeFilter` (main.js:604-655) and the range
    controls that feed it (main.js:581-600): the window computed from the selected
    range and the loaded data, and the filtering of every series into that window. */
module RangeFilter {
  import opened Seqs
  import opened Points
  import opened Store

  const HOUR_MS: int := 3600 * 1000

  /** The value of the range selector. Any value other than the listed ones leaves
      the window at [minTime, maxTime], as the `switch` without a default does. */
  datatype Range = All | LastHours(hours: nat) | Custom | Unlisted

  /** The selector's option values, as `switch (state.currentRange)` tells them apart. */
  function RangeOf(value: string): (r: Range)
    ensures r == Custom <==> value == "custom"
  {
    if value == "all" then All
    else if value == "24h" then LastHours(24)
    else if value == "48h" then LastHours(48)
    else if value == "7d" then LastHours(7 * 24)
    else if value == "30d" then LastHours(30 * 24)
    else if value == "custom" then Custom
    else Unlisted
  }

  /** A window bound as JavaScript holds it: `null` before a custom range has been
      applied, NaN when the custom date did not parse, otherwise epoch milliseconds. */
  datatype Bound = Null | NaN | Ms(ms: int)

  /** `t >= bound`: `null` compares as 0 and every comparison with NaN is false. */
  predicate AtOrAfter(t: int, b: Bound)
  {
    match b
    case Null => t >= 0
    case NaN => false
    case Ms(m) => t >= m
  }

  /** `t <= bound`, with the same conversions. */
  predicate AtOrBefore(t: int, b: Bound)
  {
    match b
    case Null => t <= 0
    case NaN => false
    case Ms(m) => t <= m
  }

  datatype Window = Window(start: Bound, end: Bound)

  /** The test of main.js:644, `p[0] >= start && p[0] <= end`. */
  predicate InWindow(t: int, w: Window)
  {
    AtOrAfter(t, w.start) && AtOrBefore(t, w.end)
  }

  /** The window of main.js:615-639 for the given data extent. */
  function WindowFor(range: Range, minTime: int, maxTime: int, customStart: Bound, customEnd: Bound): Window
  {
    match range
    case All => Window(Ms(minTime), Ms(maxTime))
    case LastHours(h) => Window(Ms(maxTime - h * HOUR_MS), Ms(maxTime))
    case Custom => Window(customStart, customEnd)
    case Unlisted => Window(Ms(minTime), Ms(maxTime))
  }

  /** The window of each selector value, in milliseconds: the presets end at the
      latest timestamp and start 24, 48, 168 or 720 hours before it; "all" and any
      unlisted value span the whole data; "custom" takes the custom bounds as given. */
  lemma SelectorWindows(value: string, minTime: int, maxTime: int, customStart: Bound, customEnd: Bound)
    ensures var w := WindowFor(RangeOf(value), minTime, maxTime, customStart, customEnd);
      && (value == "24h" ==> w == Window(Ms(maxTime - 86_400_000), Ms(maxTime)))
      && (value == "48h" ==> w == Window(Ms(maxTime - 172_800_000), Ms(maxTime)))
      && (value == "7d" ==> w == Window(Ms(maxTime - 604_800_000), Ms(maxTime)))
      && (value == "30d" ==> w == Window(Ms(maxTime - 2_592_000_000), Ms(maxTime)))
      && (value == "custom" ==> w == Window(customStart, customEnd))
      && (value !in ["24h", "48h", "7d", "30d", "custom"] ==> w == Window(Ms(minTime), Ms(maxTime)))
  {
  }

  /** `state.series.flatMap(s => s.pointsOriginal).map(p => p[0])`. */
  function OriginalTimes(ss: seq<Series>): seq<int>
  {
    if ss == [] then [] else Times(ss[0].pointsOriginal) + OriginalTimes(ss[1..])
  }

  /** Every timestamp of every series is among the collected timestamps. */
  lemma {:induction false} OriginalTimesHas(ss: seq<Series>, k: nat, j: nat)
    requires k < |ss| && j < |ss[k].pointsOriginal|
    ensures ss[k].pointsOriginal[j].time in OriginalTimes(ss)
  {
    if k == 0 {
      assert Times(ss[0].pointsOriginal)[j] == ss[k].pointsOriginal[j].time;
    } else {
      OriginalTimesHas(ss[1..], k - 1, j);
    }
  }

  /** Every collected timestamp belongs to some point of some series. */
  lemma {:induction false} OriginalTimesFrom(ss: seq<Series>, t: int) returns (k: nat, j: nat)
    requires t in OriginalTimes(ss)
    ensures k < |ss| && j < |ss[k].pointsOriginal| && ss[k].pointsOriginal[j].time == t
  {
    assert ss != [];
    var head := Times(ss[0].pointsOriginal);
    if t in head {
      var x :| 0 <= x < |head| && head[x] == t;
      k, j := 0, x;
    } else {
      var k', j' := OriginalTimesFrom(ss[1..], t);
      k, j := k' + 1, j';
    }
  }

  /** A store with at least one point: true of every non-empty store, since a series
      is only created from a non-empty list of points. */
  predicate HasData(ss: seq<Series>)
  {
    |OriginalTimes(ss)| > 0
  }

  /** The window `applyRangeFilter` computes for the store. */
  function CurrentWindow(ss: seq<Series>, range: Range, customStart: Bound, customEnd: Bound): Window
    requires HasData(ss)
  {
    var times := OriginalTimes(ss);
    WindowFor(range, MinOf(times), MaxOf(times), customStart, customEnd)
  }

  /** The window test on a point, as a value that `Filter` can take. */
  function InWindowP(w: Window): Point -> bool
  {
    (p: Point) => InWindow(p.time, w)
  }

  /** `s.pointsOriginal.filter(p => p[0] >= start && p[0] <= end)`. */
  function WindowPoints(pts: seq<Point>, w: Window): (r: seq<Point>)
    ensures |r| <= |pts|
    ensures forall i :: 0 <= i < |r| ==> InWindow(r[i].time, w)
  {
    Filter(pts, InWindowP(w))
  }

  /** One series with its filtered points recomputed from its own points. */
  function Refilter(s: Series, w: Window): (r: Series)
    ensures r.id == s.id && r.name == s.name && r.color == s.color && r.pointsOriginal == s.pointsOriginal
  {
    s.(pointsFiltered := WindowPoints(s.pointsOriginal, w))
  }

  /** Every series refiltered, in store order (main.js:643-646). */
  function Refiltered(ss: seq<Series>, w: Window): (r: seq<Series>)
    ensures |r| == |ss|
    ensures forall i :: 0 <= i < |ss| ==> r[i] == Refilter(ss[i], w)
  {
    if ss == [] then [] else [Refilter(ss[0], w)] + Refiltered(ss[1..], w)
  }

  function NoFilteredPoints(): Series -> bool
  {
    (s: Series) => s.pointsFiltered == []
  }

  /** The series reported by `showExcludedSeriesWarning`, in store order. */
  function Excluded(ss: seq<Series>): (r: seq<Series>)
    ensures forall i :: 0 <= i < |r| ==> r[i].pointsFiltered == []
  {
    Filter(ss, NoFilteredPoints())
  }

  // ---------------------------------------------------------------- properties

  /** The filtered points are the points of the series that fall in the window,
      each as often as it occurs, in their order, so they are sorted whenever the
      series is; and filtering them again changes nothing. */
  lemma WindowPointsSubsequence(pts: seq<Point>, w: Window)
    ensures IsSubsequence(WindowPoints(pts, w), pts)
    ensures Sorted(pts) ==> Sorted(WindowPoints(pts, w))
    ensures WindowPoints(WindowPoints(pts, w), w) == WindowPoints(pts, w)
    ensures forall i :: 0 <= i < |pts| && InWindow(pts[i].time, w) ==> pts[i] in WindowPoints(pts, w)
    ensures forall p :: multiset(WindowPoints(pts, w))[p] == if InWindow(p.time, w) then multiset(pts)[p] else 0
  {
    FilterIsSubsequence(pts, InWindowP(w));
    if Sorted(pts) {
      FilterSorted(pts, InWindowP(w));
    }
    FilterIdempotent(pts, InWindowP(w));
    forall i | 0 <= i < |pts| && InWindow(pts[i].time, w) ensures pts[i] in WindowPoints(pts, w) {
      FilterKeeps(pts, InWindowP(w), i);
    }
    forall p ensures multiset(WindowPoints(pts, w))[p] == if InWindow(p.time, w) then multiset(pts)[p] else 0 {
      FilterCount(pts, InWindowP(w), p);
    }
  }

  /** The excluded list is exactly the series left without points, in store order. */
  lemma ExcludedExactly(ss: seq<Series>)
    ensures IsSubsequence(Excluded(ss), ss)
    ensures forall i :: 0 <= i < |ss| && ss[i].pointsFiltered == [] ==> ss[i] in Excluded(ss)
  {
    FilterIsSubsequence(ss, NoFilteredPoints());
    forall i | 0 <= i < |ss| && ss[i].pointsFiltered == [] ensures ss[i] in Excluded(ss) {
      FilterKeeps(ss, NoFilteredPoints(), i);
    }
  }

  /** Refiltering keeps a well-formed series well-formed. */
  lemma RefilterWellFormed(s: Series, w: Window)
    requires WellFormed(s)
    ensures WellFormed(Refilter(s, w))
  {
    WindowPointsSubsequence(s.pointsOriginal, w);
  }

  /** Filtering does not touch the points the window is computed from. */
  lemma {:induction false} OriginalTimesRefiltered(ss: seq<Series>, w: Window)
    ensures OriginalTimes(Refiltered(ss, w)) == OriginalTimes(ss)
  {
    if ss != [] {
      OriginalTimesRefiltered(ss[1..], w);
      assert Refiltered(ss, w)[1..] == Refiltered(ss[1..], w);
    }
  }

  /** The window depends only on the series' own points, so applying the filter a
      second time yields the same store. */
  lemma RangeFilterIdempotent(ss: seq<Series>, range: Range, customStart: Bound, customEnd: Bound)
    requires HasData(ss)
    ensures var w := CurrentWindow(ss, range, customStart, customEnd);
      var once := Refiltered(ss, w);
      HasData(once) && Refiltered(once, CurrentWindow(once, range, customStart, customEnd)) == once
  {
    var w := CurrentWindow(ss, range, customStart, customEnd);
    var once := Refiltered(ss, w);
    OriginalTimesRefiltered(ss, w);
    assert CurrentWindow(once, range, customStart, customEnd) == w;
  }

  /** Under "all", and under any value the selector does not list, every series
      keeps all of its points. */
  lemma AllKeepsEverything(ss: seq<Series>, range: Range, customStart: Bound, customEnd: Bound, k: nat)
    requires HasData(ss) && (range == All || range == Unlisted)
    requires k < |ss|
    ensures WindowPoints(ss[k].pointsOriginal, CurrentWindow(ss, range, customStart, customEnd)) == ss[k].pointsOriginal
  {
    var w := CurrentWindow(ss, range, customStart, customEnd);
    var pts := ss[k].pointsOriginal;
    forall j | 0 <= j < |pts| ensures InWindowP(w)(pts[j]) {
      OriginalTimesHas(ss, k, j);
    }
    FilterKeepsAll(pts, InWindowP(w));
  }

  /** Under a preset of h hours a point of the store is kept exactly when it lies
      within h hours of the latest timestamp in the store. */
  lemma PresetKeepsRecent(ss: seq<Series>, h: nat, customStart: Bound, customEnd: Bound, k: nat, j: nat)
    requires HasData(ss)
    requires k < |ss| && j < |ss[k].pointsOriginal|
    ensures var p := ss[k].pointsOriginal[j];
      InWindow(p.time, CurrentWindow(ss, LastHours(h), customStart, customEnd)) <==>
      p.time >= MaxOf(OriginalTimes(ss)) - h * HOUR_MS
  {
    OriginalTimesHas(ss, k, j);
  }

  /** Outside the custom mode the window always contains the latest timestamp, so at
      least one series keeps a point and not every series is reported as excluded. */
  lemma SomeSeriesSurvives(ss: seq<Series>, range: Range, customStart: Bound, customEnd: Bound)
    requires HasData(ss) && range != Custom
    ensures var r := Refiltered(ss, CurrentWindow(ss, range, customStart, customEnd));
      |Excluded(r)| < |r|
  {
    var w := CurrentWindow(ss, range, customStart, customEnd);
    var r := Refiltered(ss, w);
    var times := OriginalTimes(ss);
    var k, j := OriginalTimesFrom(ss, MaxOf(times));
    assert InWindow(MaxOf(times), w);
    WindowPointsSubsequence(ss[k].pointsOriginal, w);
    assert ss[k].pointsOriginal[j] in r[k].pointsFiltered;
    FilterDrops(r, NoFilteredPoints(), k);
  }

  /** A custom range that was never applied keeps only points stamped exactly 0
      (`t >= null && t <= null`); a custom bound that did not parse keeps nothing. */
  lemma CustomBounds(pts: seq<Point>, b: Bound)
    ensures WindowPoints(pts, Window(Null, Null)) == Filter(pts, TimeIs(0))
    ensures WindowPoints(pts, Window(NaN, b)) == [] && WindowPoints(pts, Window(b, NaN)) == []
  {
    FilterCongruent(pts, InWindowP(Window(Null, Null)), TimeIs(0));
  }
}
