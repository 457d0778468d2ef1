/** The page's mutable `state` record (main.js:5-12) and the handlers that update it:
    adding files (`handleIncomingFiles`, main.js:260-280), removing a series
    (main.js:390-394), choosing a range (main.js:581-600) and `applyRangeFilter`
    (main.js:604-655). What the page draws after each update is returned as a `View`. */
module Dashboard {
  import opened Wrappers
  import opened Seqs
  import opened Points
  import opened TextParser
  import opened Store
  import opened RangeFilter
  import opened Derived

  /** What one `applyRangeFilter` shows: the excluded-series warning (`None` when the
      warning is left as it was), the difference curve, the metrics and the event log. */
  datatype View = View(excluded: Option<seq<Series>>, diff: Option<seq<DiffPoint>>, stats: Stats, events: seq<Event>)

  /** The store after `applyRangeFilter`: unchanged when it holds no points, otherwise
      every series refiltered into the window of the current range. */
  function AfterRangeFilter(ss: seq<Series>, range: Range, customStart: Bound, customEnd: Bound): seq<Series>
  {
    if HasData(ss) then Refiltered(ss, CurrentWindow(ss, range, customStart, customEnd)) else ss
  }

  /** What `applyRangeFilter` shows for the store it has just filtered; events are
      those of the last series only. */
  function RenderedView(ss: seq<Series>): View
  {
    if ss == [] then View(None, None, StatsOf(ss), [])
    else
      View(
        Some(Excluded(ss)),
        if |ss| == 2 then Some(PairwiseDiff(ss[0].pointsFiltered, ss[1].pointsFiltered)) else None,
        StatsOf(ss),
        EventsOf(ss[|ss| - 1]))
  }

  /** The documents each file of a batch yields, in batch order. */
  function Batches(files: seq<InputFile>, load: InputFile -> seq<Document>): (r: seq<seq<Document>>)
    ensures |r| == |files|
    ensures forall i :: 0 <= i < |files| ==> r[i] == load(files[i])
  {
    if files == [] then [] else [load(files[0])] + Batches(files[1..], load)
  }

  /** The documents a file yields, as a value the page holds. */
  function Loader(): InputFile -> seq<Document>
  {
    (file: InputFile) => LoadedDocuments(file)
  }

  /** A store whose series are all well formed and whose ids increase strictly and lie
      below the next id to hand out. */
  ghost predicate ValidStore(ss: seq<Series>, nextId: nat)
  {
    && (forall i :: 0 <= i < |ss| ==> WellFormed(ss[i]) && ss[i].id < nextId)
    && (forall i, j :: 0 <= i < j < |ss| ==> ss[i].id < ss[j].id)
  }

  /** A non-empty store of well-formed series has points to take a window from. */
  lemma {:induction false} ValidStoreHasData(ss: seq<Series>, nextId: nat)
    requires ValidStore(ss, nextId) && ss != []
    ensures HasData(ss)
  {
    OriginalTimesHas(ss, 0, 0);
  }

  /** Filtering keeps the store valid, with its ids, names, colours and own points. */
  lemma AfterRangeFilterValid(ss: seq<Series>, nextId: nat, range: Range, customStart: Bound, customEnd: Bound)
    requires ValidStore(ss, nextId)
    ensures var r := AfterRangeFilter(ss, range, customStart, customEnd);
      && ValidStore(r, nextId)
      && |r| == |ss|
      && forall i :: 0 <= i < |ss| ==>
           r[i].id == ss[i].id && r[i].name == ss[i].name && r[i].color == ss[i].color
           && r[i].pointsOriginal == ss[i].pointsOriginal
  {
    if HasData(ss) {
      var w := CurrentWindow(ss, range, customStart, customEnd);
      forall i | 0 <= i < |ss| ensures WellFormed(Refilter(ss[i], w)) {
        RefilterWellFormed(ss[i], w);
      }
    }
  }

  /** Removal keeps the store valid. */
  lemma RemoveByIdValid(ss: seq<Series>, nextId: nat, id: nat)
    requires ValidStore(ss, nextId)
    ensures ValidStore(RemoveById(ss, id), nextId)
  {
    RemoveByIdKeepsOthers(ss, id);
  }

  /** A new series that takes the next id and holds a sorted, non-empty list of
      points both as its original and its filtered points keeps the store valid. */
  lemma AppendNewValid(ss: seq<Series>, s: Series)
    requires ValidStore(ss, s.id)
    requires IsNewSeries(s, s.id, s.color) && Sorted(s.pointsOriginal)
    ensures ValidStore(ss + [s], s.id + 1)
  {
    IsSubsequenceReflexive(s.pointsOriginal);
  }

  /** A store holding `base` and the series of the first n files, followed by the
      series of file n's documents in the colour for its current size, holds `base`
      and the series of the first n + 1 files. */
  lemma StoreAfterFile(batches: seq<seq<Document>>, n: nat, base: seq<Series>, firstId: nat,
                       parse: string -> seq<Point>, docs: seq<Document>, store: seq<Series>, id: nat)
    requires n < |batches| && docs == batches[n]
    requires store == base + FilesSeries(batches, n, |base|, firstId, parse)
    requires id == firstId + |FilesSeries(batches, n, |base|, firstId, parse)|
    ensures store + DocsSeries(docs, |docs|, PickSeriesColor(|store|), id, parse) == base + FilesSeries(batches, n + 1, |base|, firstId, parse)
    ensures id + |DocsSeries(docs, |docs|, PickSeriesColor(|store|), id, parse)| == firstId + |FilesSeries(batches, n + 1, |base|, firstId, parse)|
  {
    var before := FilesSeries(batches, n, |base|, firstId, parse);
    var added := DocsSeries(docs, |docs|, PickSeriesColor(|store|), id, parse);
    FilesSeriesNext(batches, n, |base|, firstId, parse, before, docs, PickSeriesColor(|base| + |before|), firstId + |before|);
    AppendAssoc(base, before, added);
  }

  /** A reader whose every result is ordered by time. */
  ghost predicate SortsByTime(parse: string -> seq<Point>)
  {
    forall text :: Sorted(parse(text))
  }

  /** `parseDataFromTxt` sorts whatever it returns. */
  lemma ParserSortsByTime(parsers: Parsers)
    ensures SortsByTime(Parser(parsers))
  {
    forall text ensures Sorted(Parser(parsers)(text)) {
      assert Parser(parsers)(text) == ParseData(text, parsers);
    }
  }

  /** The JavaScript value of `new Date(s).getTime()`: a number, or NaN. */
  function BoundOf(t: Option<int>): (b: Bound)
    ensures b == NaN <==> t.None?
    ensures t.Some? ==> b == Ms(t.value)
  {
    match t
    case None => NaN
    case Some(ms) => Ms(ms)
  }

  class AppState {
    /** The date and number readers the page relies on. */
    const parsers: Parsers
    /** `parseDataFromTxt` with those readers. */
    const parse: string -> seq<Point>
    /** The reading of one selected file into its text documents. */
    const load: InputFile -> seq<Document>
    var series: seq<Series>
    var currentRange: string
    var customStart: Bound
    var customEnd: Bound
    /** Stands in for the random ids of main.js:252. */
    var nextId: nat

    ghost predicate Valid()
      reads this
    {
      ValidStore(series, nextId) && SortsByTime(parse)
    }

    /** The initial state (main.js:5-12): no series, range "all", no custom bounds. */
    constructor(parsers: Parsers)
      ensures Valid()
      ensures this.parsers == parsers && parse == Parser(parsers) && load == Loader() && series == [] && nextId == 0
      ensures currentRange == "all" && customStart == Null && customEnd == Null
    {
      this.parsers := parsers;
      parse := Parser(parsers);
      load := Loader();
      ParserSortsByTime(parsers);
      series := [];
      currentRange := "all";
      customStart := Null;
      customEnd := Null;
      nextId := 0;
    }

    /** `createSeriesObject`: a series with a fresh id whose filtered points are its
        own points. */
    method CreateSeriesObject(name: string, color: Color, points: seq<Point>) returns (s: Series)
      modifies this`nextId
      ensures s == Series(old(nextId), name, color, points, points)
      ensures nextId == old(nextId) + 1
    {
      s := Series(nextId, name, color, points, points);
      nextId := nextId + 1;
    }

    /** The loop of main.js:641-646: every series refiltered in place, and the ones
        left without points collected in store order. */
    method RefilterAll(w: Window) returns (excluded: seq<Series>)
      modifies this`series
      ensures series == Refiltered(old(series), w)
      ensures excluded == Excluded(series)
    {
      excluded := [];
      var i := 0;
      while i < |series|
        invariant 0 <= i <= |series| == |old(series)|
        invariant forall j :: 0 <= j < i ==> series[j] == Refilter(old(series)[j], w)
        invariant forall j :: i <= j < |series| ==> series[j] == old(series)[j]
        invariant excluded == Excluded(series[..i])
      {
        var s := Refilter(series[i], w);
        series := series[i := s];
        assert series[..i + 1] == series[..i] + [s];
        FilterConcat(series[..i], [s], NoFilteredPoints());
        FilterSingleton(s, NoFilteredPoints());
        if s.pointsFiltered == [] {
          excluded := excluded + [s];
        }
        i := i + 1;
      }
      assert series[..i] == series;
    }

    /** `applyRangeFilter`: refilter every series into the window of the current range,
        collect the series left empty, and render the derived data. */
    method ApplyRangeFilter() returns (view: View)
      requires Valid()
      modifies this`series
      ensures Valid()
      ensures series == AfterRangeFilter(old(series), RangeOf(currentRange), customStart, customEnd)
      ensures view == RenderedView(series)
    {
      if |series| == 0 {
        var diff := ComparisonDiff(series);
        return View(None, diff, StatsOf(series), []);
      }
      ValidStoreHasData(series, nextId);
      AfterRangeFilterValid(series, nextId, RangeOf(currentRange), customStart, customEnd);
      var w := CurrentWindow(series, RangeOf(currentRange), customStart, customEnd);
      var excluded := RefilterAll(w);
      var diff := ComparisonDiff(series);
      var events := RenderEvents(series[|series| - 1]);
      view := View(Some(excluded), diff, StatsOf(series), events);
    }

    /** The inner loop of main.js:270-275: every document with points becomes a new
        series in the given colour. */
    method AddDocuments(loaded: seq<Document>, color: Color)
      requires Valid()
      modifies this`series, this`nextId
      ensures Valid()
      ensures var added := DocsSeries(loaded, |loaded|, color, old(nextId), parse);
        series == old(series) + added && nextId == old(nextId) + |added|
    {
      ghost var base, firstId := series, nextId;
      ghost var added: seq<Series> := [];
      var d := 0;
      while d < |loaded|
        invariant d <= |loaded|
        invariant added == DocsSeries(loaded, d, color, firstId, parse)
        invariant series == base + added
        invariant nextId == firstId + |added|
        invariant Valid()
      {
        ghost var one := DocSeries(loaded[d], color, nextId, parse);
        AddDocument(loaded[d], color);
        AppendAssoc(base, added, one);
        added := added + one;
        d := d + 1;
      }
    }

    /** The body of the inner loop of main.js:270-275: a document that yields points
        becomes a new series in the given colour; one that yields none adds nothing. */
    method AddDocument(doc: Document, color: Color)
      requires Valid()
      modifies this`series, this`nextId
      ensures Valid()
      ensures var added := DocSeries(doc, color, old(nextId), parse);
        series == old(series) + added && nextId == old(nextId) + |added|
    {
      var pts := parse(doc.content);
      if |pts| > 0 {
        var s := CreateSeriesObject(doc.fileName, color, pts);
        AppendNewValid(series, s);
        series := series + [s];
      }
    }

    /** One pass of the outer loop of main.js:261-276: the file's colour is the
        palette entry for the current number of series, and every document it yields
        is added in that colour. */
    method AddFile(file: InputFile)
      requires Valid()
      modifies this`series, this`nextId
      ensures Valid()
      ensures var added := DocsSeries(load(file), |load(file)|, PickSeriesColor(|old(series)|), old(nextId), parse);
        series == old(series) + added && nextId == old(nextId) + |added|
    {
      var color := PickSeriesColor(|series|);
      var loaded := load(file);
      AddDocuments(loaded, color);
    }

    /** The outer loop of main.js:261-276: the files in order, each adding the series
        of its documents. */
    method AddFiles(files: seq<InputFile>)
      requires Valid()
      modifies this`series, this`nextId
      ensures Valid()
      ensures var added := FilesSeries(Batches(files, load), |files|, |old(series)|, old(nextId), parse);
        series == old(series) + added && nextId == old(nextId) + |added|
    {
      ghost var batches := Batches(files, load);
      ghost var base, firstId := series, nextId;
      for f := 0 to |files|
        invariant series == base + FilesSeries(batches, f, |base|, firstId, parse)
        invariant nextId == firstId + |FilesSeries(batches, f, |base|, firstId, parse)|
        invariant Valid()
      {
        StoreAfterFile(batches, f, base, firstId, parse, load(files[f]), series, nextId);
        AddFile(files[f]);
      }
    }

    /** `handleIncomingFiles`: add the series of every file, then apply the range
        filter. */
    method HandleIncomingFiles(files: seq<InputFile>) returns (view: View)
      requires Valid()
      modifies this`series, this`nextId
      ensures Valid()
      ensures var added := FilesSeries(Batches(files, load), |files|, |old(series)|, old(nextId), parse);
        && nextId == old(nextId) + |added|
        && series == AfterRangeFilter(old(series) + added, RangeOf(currentRange), customStart, customEnd)
      ensures view == RenderedView(series)
    {
      AddFiles(files);
      view := ApplyRangeFilter();
    }

    /** The remove button (main.js:390-394): drop the series with this id, then apply
        the range filter. */
    method RemoveSeries(id: nat) returns (view: View)
      requires Valid()
      modifies this`series
      ensures Valid()
      ensures series == AfterRangeFilter(RemoveById(old(series), id), RangeOf(currentRange), customStart, customEnd)
      ensures view == RenderedView(series)
    {
      RemoveByIdValid(series, nextId, id);
      series := RemoveById(series, id);
      view := ApplyRangeFilter();
    }

    /** The range selector (main.js:581-588): remember the value and, unless it is
        "custom", apply the range filter. */
    method SelectRange(value: string) returns (view: Option<View>)
      requires Valid()
      modifies this`series, this`currentRange
      ensures Valid() && currentRange == value
      ensures value == "custom" ==> series == old(series) && view.None?
      ensures value != "custom" ==>
        && series == AfterRangeFilter(old(series), RangeOf(value), customStart, customEnd)
        && view == Some(RenderedView(series))
    {
      currentRange := value;
      if value != "custom" {
        var v := ApplyRangeFilter();
        return Some(v);
      }
      return None;
    }

    /** The apply button of the custom range (main.js:590-600): nothing happens unless
        both inputs are filled in; otherwise both bounds are read as dates and the range
        filter is applied under the current range. */
    method ApplyCustomRange(startText: string, endText: string) returns (view: Option<View>)
      requires Valid()
      modifies this`series, this`customStart, this`customEnd
      ensures Valid()
      ensures startText == [] || endText == [] ==>
        series == old(series) && customStart == old(customStart) && customEnd == old(customEnd) && view.None?
      ensures startText != [] && endText != [] ==>
        && customStart == BoundOf(parsers.date(startText))
        && customEnd == BoundOf(parsers.date(endText))
        && series == AfterRangeFilter(old(series), RangeOf(currentRange), customStart, customEnd)
        && view == Some(RenderedView(series))
    {
      if startText == [] || endText == [] {
        return None;
      }
      customStart := BoundOf(parsers.date(startText));
      customEnd := BoundOf(parsers.date(endText));
      var v := ApplyRangeFilter();
      return Some(v);
    }
  }
}
