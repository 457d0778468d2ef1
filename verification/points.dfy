/** Measurements and their ordering by time. `SortByTime` is what
    `points.sort((a, b) => a[0] - b[0])` computes (main.js:242): JavaScript's
    `Array.prototype.sort` is stable, so it is modelled as a stable insertion sort. */
module Points {
  import opened Seqs

  /** A measurement: epoch milliseconds and a value. A JavaScript number is modelled
      as an exact real; floating-point rounding is not modelled. */
  datatype Point = Point(time: int, value: real)

  /** Non-decreasing by timestamp. */
  predicate Sorted(s: seq<Point>)
  {
    forall i, j :: 0 <= i < j < |s| ==> s[i].time <= s[j].time
  }

  /** The timestamps of a list of points, in order (`pts.map(p => p[0])`). */
  function Times(pts: seq<Point>): (r: seq<int>)
    ensures |r| == |pts|
    ensures forall j :: 0 <= j < |pts| ==> r[j] == pts[j].time
  {
    if pts == [] then [] else [pts[0].time] + Times(pts[1..])
  }

  /** The test "this point has timestamp t", as a value that `Filter` can take. */
  function TimeIs(t: int): Point -> bool
  {
    (p: Point) => p.time == t
  }

  /** The relation "no later in time", as a value that `FilterKeepsOrder` can take. */
  function NotLater(): (Point, Point) -> bool
  {
    (p: Point, q: Point) => p.time <= q.time
  }

  /** `p` placed before the first point of `s` whose timestamp is not earlier. */
  function Insert(p: Point, s: seq<Point>): (r: seq<Point>)
    ensures multiset(r) == multiset(s) + multiset{p}
  {
    if s == [] || p.time <= s[0].time then [p] + s
    else
      assert s == [s[0]] + s[1..];
      [s[0]] + Insert(p, s[1..])
  }

  lemma {:induction false} InsertSorted(p: Point, s: seq<Point>)
    requires Sorted(s)
    ensures Sorted(Insert(p, s))
  {
    if !(s == [] || p.time <= s[0].time) {
      var rest := Insert(p, s[1..]);
      InsertSorted(p, s[1..]);
      var r := [s[0]] + rest;
      forall j | 0 < j < |r| ensures s[0].time <= r[j].time {
        assert r[j] == rest[j - 1];
        assert rest[j - 1] in multiset(rest);
        if r[j] != p {
          assert r[j] in multiset(s[1..]);
          var k :| 0 <= k < |s[1..]| && s[1..][k] == r[j];
          assert s[k + 1] == r[j];
        }
      }
    }
  }

  /** The points of `s` ordered by timestamp; points with equal timestamps keep their order. */
  function SortByTime(s: seq<Point>): (r: seq<Point>)
    ensures Sorted(r)
    ensures multiset(r) == multiset(s)
    ensures |r| == |s|
  {
    if s == [] then []
    else
      assert s == [s[0]] + s[1..];
      var rest := SortByTime(s[1..]);
      InsertSorted(s[0], rest);
      Insert(s[0], rest)
  }

  lemma {:induction false} InsertStable(p: Point, s: seq<Point>, t: int)
    ensures Filter(Insert(p, s), TimeIs(t)) == Filter([p], TimeIs(t)) + Filter(s, TimeIs(t))
  {
    var at := TimeIs(t);
    if s == [] || p.time <= s[0].time {
      FilterConcat([p], s, at);
    } else {
      var rest := s[1..];
      assert s == [s[0]] + rest;
      calc {
        Filter(Insert(p, s), at);
        Filter([s[0]] + Insert(p, rest), at);
        { FilterConcat([s[0]], Insert(p, rest), at); }
        Filter([s[0]], at) + Filter(Insert(p, rest), at);
        { InsertStable(p, rest, t); }
        Filter([s[0]], at) + (Filter([p], at) + Filter(rest, at));
        { assert Filter([s[0]], at) == [] || Filter([p], at) == []; }
        Filter([p], at) + (Filter([s[0]], at) + Filter(rest, at));
        { FilterConcat([s[0]], rest, at); }
        Filter([p], at) + Filter(s, at);
      }
    }
  }

  /** The sort is stable: for every timestamp, the points carrying it appear in the
      result in exactly the order they had in the input. */
  lemma {:induction false} SortByTimeStable(s: seq<Point>, t: int)
    ensures Filter(SortByTime(s), TimeIs(t)) == Filter(s, TimeIs(t))
  {
    var at := TimeIs(t);
    if s != [] {
      var rest := s[1..];
      assert s == [s[0]] + rest;
      calc {
        Filter(SortByTime(s), at);
        Filter(Insert(s[0], SortByTime(rest)), at);
        { InsertStable(s[0], SortByTime(rest), t); }
        Filter([s[0]], at) + Filter(SortByTime(rest), at);
        { SortByTimeStable(rest, t); }
        Filter([s[0]], at) + Filter(rest, at);
        { FilterConcat([s[0]], rest, at); }
        Filter(s, at);
      }
    }
  }

  /** A sorted list is left unchanged by the sort. */
  lemma {:induction false} SortByTimeOfSorted(s: seq<Point>)
    requires Sorted(s)
    ensures SortByTime(s) == s
  {
    if s != [] {
      SortByTimeOfSorted(s[1..]);
      assert s == [s[0]] + s[1..];
      assert s[1..] == [] || s[0].time <= s[1..][0].time;
    }
  }

  /** Filtering a sorted list leaves it sorted. */
  lemma FilterSorted(s: seq<Point>, keep: Point -> bool)
    requires Sorted(s)
    ensures Sorted(Filter(s, keep))
  {
    FilterKeepsOrder(s, keep, NotLater());
  }
}
