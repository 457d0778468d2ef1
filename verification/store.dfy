/** The series store: the series record built by `createSeriesObject`
    (main.js:250-258), the palette and `pickSeriesColor` (main.js:14-17,
    main.js:662-664), removal by id (main.js:391), and the series that one batch of
    input files adds (main.js:260-276). The store itself, which the page updates in
    place, is the class in the Dashboard module; this module holds the values and the
    functions that specify its updates. */
module Store {
  import opened Wrappers
  import opened Seqs
  import opened Points
  import opened TextParser

  /** One loaded document. `id` stands for the random string of main.js:252; the
      store hands out ids from a counter, so they are unique by construction. */
  datatype Series = Series(
    id: nat,
    name: string,
    color: Color,
    pointsOriginal: seq<Point>,
    pointsFiltered: seq<Point>)

  /** What every series in the store satisfies: its own points are non-empty and
      sorted, and its filtered points are a subsequence of them. */
  ghost predicate WellFormed(s: Series)
  {
    |s.pointsOriginal| > 0 && Sorted(s.pointsOriginal) && IsSubsequence(s.pointsFiltered, s.pointsOriginal)
  }

  /** The CSS colour strings of `SERIES_COLORS`, in palette order. */
  const SERIES_COLORS: seq<string> :=
    ["#22c55e", "#0ea5e9", "#a855f7", "#f97316", "#e11d48", "#14b8a6", "#facc15", "#64748b"]

  /** A position in the eight-entry palette. */
  type Slot = k: nat | k < 8

  /** A series colour: the palette entry at a position. */
  datatype Color = Swatch(slot: Slot)

  /** The CSS colour string of a palette entry. */
  function Hex(c: Color): (h: string)
    ensures h in SERIES_COLORS
  {
    SERIES_COLORS[c.slot]
  }

  /** `pickSeriesColor(i)`: the palette, cycled by position. */
  function PickSeriesColor(i: nat): Color
  {
    Swatch(i % 8)
  }

  /** The colour for position i is entry `i % SERIES_COLORS.length` of the palette;
      the palette repeats every eight series, and eight consecutive positions get
      eight different colours, with eight different CSS strings. */
  lemma PaletteCycle(i: nat, j: nat)
    ensures Hex(PickSeriesColor(i)) == SERIES_COLORS[i % |SERIES_COLORS|]
    ensures PickSeriesColor(i + 8) == PickSeriesColor(i)
    ensures PickSeriesColor(i) == PickSeriesColor(j) <==> i % 8 == j % 8
    ensures Hex(PickSeriesColor(i)) == Hex(PickSeriesColor(j)) <==> i % 8 == j % 8
  {
    HexInjective(PickSeriesColor(i), PickSeriesColor(j));
  }

  /** Different palette entries have different CSS strings. */
  lemma HexInjective(c: Color, d: Color)
    ensures Hex(c) == Hex(d) <==> c == d
  {
    if Hex(c) == Hex(d) {
      assert Hex(c)[1] == Hex(d)[1] && Hex(c)[2] == Hex(d)[2];
    }
  }

  // ---------------------------------------------------------------- removal

  function IdIsNot(id: nat): Series -> bool
  {
    (x: Series) => x.id != id
  }

  function IdBefore(): (Series, Series) -> bool
  {
    (x: Series, y: Series) => x.id < y.id
  }

  /** `state.series.filter(x => x.id !== id)`. */
  function RemoveById(ss: seq<Series>, id: nat): (r: seq<Series>)
    ensures forall i :: 0 <= i < |r| ==> r[i] in ss && r[i].id != id
  {
    Filter(ss, IdIsNot(id))
  }

  /** Removal keeps the other series in their order, is a no-op for an id that is not
      in the store, and keeps ids increasing when they were. */
  lemma RemoveByIdKeepsOthers(ss: seq<Series>, id: nat)
    ensures IsSubsequence(RemoveById(ss, id), ss)
    ensures forall i :: 0 <= i < |ss| && ss[i].id != id ==> ss[i] in RemoveById(ss, id)
    ensures (forall i :: 0 <= i < |ss| ==> ss[i].id != id) ==> RemoveById(ss, id) == ss
    ensures (forall i, j :: 0 <= i < j < |ss| ==> ss[i].id < ss[j].id) ==>
      forall i, j :: 0 <= i < j < |RemoveById(ss, id)| ==> RemoveById(ss, id)[i].id < RemoveById(ss, id)[j].id
  {
    FilterIsSubsequence(ss, IdIsNot(id));
    forall i | 0 <= i < |ss| && ss[i].id != id ensures ss[i] in RemoveById(ss, id) {
      FilterKeeps(ss, IdIsNot(id), i);
    }
    if forall i :: 0 <= i < |ss| ==> ss[i].id != id {
      FilterKeepsAll(ss, IdIsNot(id));
    }
    if forall i, j :: 0 <= i < j < |ss| ==> ss[i].id < ss[j].id {
      FilterKeepsOrder(ss, IdIsNot(id), IdBefore());
    }
  }

  /** With distinct ids, removing an id that is present shortens the store by one. */
  lemma RemoveByIdRemovesOne(ss: seq<Series>, id: nat, k: nat)
    requires k < |ss| && ss[k].id == id
    requires forall i, j :: 0 <= i < j < |ss| ==> ss[i].id != ss[j].id
    ensures |RemoveById(ss, id)| == |ss| - 1
  {
    var r := RemoveById(ss, id);
    assert ss == ss[..k] + [ss[k]] + ss[k + 1..];
    FilterConcat(ss[..k] + [ss[k]], ss[k + 1..], IdIsNot(id));
    FilterConcat(ss[..k], [ss[k]], IdIsNot(id));
    var front, back := ss[..k], ss[k + 1..];
    forall i | 0 <= i < |front| ensures IdIsNot(id)(front[i]) {
      assert front[i] == ss[i];
    }
    FilterKeepsAll(front, IdIsNot(id));
    forall i | 0 <= i < |back| ensures IdIsNot(id)(back[i]) {
      assert back[i] == ss[k + 1 + i];
    }
    FilterKeepsAll(back, IdIsNot(id));
  }

  // ---------------------------------------------------------------- loading

  /** An entry of a ZIP archive as the archive reader lists it. */
  datatype ZipEntry = ZipEntry(name: string, isDirectory: bool, text: string)

  /** A file handed to the page. Reading it is I/O: `text` is what the text reader
      yields for it, `entries` what the archive reader yields; which of the two is used
      depends on the file name. */
  datatype InputFile = InputFile(name: string, text: string, entries: seq<ZipEntry>)

  /** A named text payload after sanitising, as both readers return it. */
  datatype Document = Document(fileName: string, content: string)

  /** `readZipFile`: the non-directory ".txt" entries, in archive order, sanitised. */
  function ArchiveDocuments(entries: seq<ZipEntry>): (r: seq<Document>)
    ensures |r| <= |entries|
  {
    if entries == [] then []
    else
      var e := entries[0];
      (if IsTextEntry(e.name, e.isDirectory) then [Document(e.name, Sanitize(e.text))] else [])
      + ArchiveDocuments(entries[1..])
  }

  /** Every document read from the archive is a text entry of it, under its own name. */
  lemma {:induction false} ArchiveDocumentsSound(entries: seq<ZipEntry>, k: nat) returns (i: nat)
    requires k < |ArchiveDocuments(entries)|
    ensures i < |entries| && IsTextEntry(entries[i].name, entries[i].isDirectory)
    ensures ArchiveDocuments(entries)[k] == Document(entries[i].name, Sanitize(entries[i].text))
  {
    var e := entries[0];
    var head := if IsTextEntry(e.name, e.isDirectory) then [Document(e.name, Sanitize(e.text))] else [];
    assert ArchiveDocuments(entries) == head + ArchiveDocuments(entries[1..]);
    if k < |head| {
      i := 0;
    } else {
      var i' := ArchiveDocumentsSound(entries[1..], k - |head|);
      i := i' + 1;
    }
  }

  /** Every text entry of the archive is read, under its own name. */
  lemma {:induction false} ArchiveDocumentsComplete(entries: seq<ZipEntry>, i: nat)
    requires i < |entries| && IsTextEntry(entries[i].name, entries[i].isDirectory)
    ensures Document(entries[i].name, Sanitize(entries[i].text)) in ArchiveDocuments(entries)
  {
    if i > 0 {
      ArchiveDocumentsComplete(entries[1..], i - 1);
    }
  }

  /** Every position one further on. */
  function Incremented(xs: seq<nat>): (r: seq<nat>)
    ensures |r| == |xs|
    ensures forall j :: 0 <= j < |xs| ==> r[j] == xs[j] + 1
  {
    if xs == [] then [] else [xs[0] + 1] + Incremented(xs[1..])
  }

  ghost predicate Increasing(idx: seq<nat>)
  {
    forall a, b :: 0 <= a < b < |idx| ==> idx[a] < idx[b]
  }

  /** `idx` holds exactly the positions of the text entries. */
  ghost predicate TextPositions(entries: seq<ZipEntry>, idx: seq<nat>)
  {
    forall i: nat :: i in idx <==> i < |entries| && IsTextEntry(entries[i].name, entries[i].isDirectory)
  }

  /** Document k of the archive is read from entry idx[k]. */
  ghost predicate ReadFrom(entries: seq<ZipEntry>, idx: seq<nat>)
  {
    && |idx| == |ArchiveDocuments(entries)|
    && forall k :: 0 <= k < |idx| ==>
         idx[k] < |entries| && ArchiveDocuments(entries)[k] == Document(entries[idx[k]].name, Sanitize(entries[idx[k]].text))
  }

  /** The documents come in archive order, one per text entry: `idx` lists the
      positions of the text entries, increasing, and document k is entry idx[k]. */
  lemma {:induction false} ArchiveDocumentsIndexed(entries: seq<ZipEntry>) returns (idx: seq<nat>)
    ensures |idx| == |ArchiveDocuments(entries)|
    ensures forall a, b :: 0 <= a < b < |idx| ==> idx[a] < idx[b]
    ensures forall i: nat :: i in idx <==> i < |entries| && IsTextEntry(entries[i].name, entries[i].isDirectory)
    ensures forall k :: 0 <= k < |idx| ==>
      idx[k] < |entries| && ArchiveDocuments(entries)[k] == Document(entries[idx[k]].name, Sanitize(entries[idx[k]].text))
  {
    if entries == [] {
      idx := [];
    } else {
      var rest := ArchiveDocumentsIndexed(entries[1..]);
      assert Increasing(rest) && TextPositions(entries[1..], rest) && ReadFrom(entries[1..], rest);
      IncrementedIncreasing(rest);
      TextPositionsAfter(entries, rest);
      ReadFromAfter(entries, rest);
      if IsTextEntry(entries[0].name, entries[0].isDirectory) {
        idx := [0] + Incremented(rest);
      } else {
        idx := Incremented(rest);
      }
      assert Increasing(idx) && TextPositions(entries, idx) && ReadFrom(entries, idx);
    }
  }

  lemma IncrementedIncreasing(xs: seq<nat>)
    requires Increasing(xs)
    ensures Increasing(Incremented(xs)) && Increasing([0] + Incremented(xs))
  {
    var r := Incremented(xs);
    var z := [0] + r;
    forall a, b | 0 <= a < b < |z| ensures z[a] < z[b] {
      assert z[b] == r[b - 1];
      if a > 0 {
        assert z[a] == r[a - 1];
      }
    }
  }

  /** The text positions of an archive: its first entry's, if it is one, then those
      of the later entries shifted by one. */
  lemma TextPositionsAfter(entries: seq<ZipEntry>, rest: seq<nat>)
    requires entries != [] && TextPositions(entries[1..], rest)
    ensures IsTextEntry(entries[0].name, entries[0].isDirectory) ==> TextPositions(entries, [0] + Incremented(rest))
    ensures !IsTextEntry(entries[0].name, entries[0].isDirectory) ==> TextPositions(entries, Incremented(rest))
  {
    var tail, shifted := entries[1..], Incremented(rest);
    forall i: nat
      ensures i in shifted <==> 0 < i < |entries| && IsTextEntry(entries[i].name, entries[i].isDirectory)
    {
      IncrementedMember(rest, i);
      if 0 < i < |entries| {
        assert entries[i] == tail[i - 1];
      }
    }
    forall i: nat ensures i in [0] + shifted <==> i == 0 || i in shifted {
    }
  }

  /** The documents of an archive: its first entry's, if it is a text entry, then
      those of the later entries, read from positions shifted by one. */
  lemma ReadFromAfter(entries: seq<ZipEntry>, rest: seq<nat>)
    requires entries != [] && ReadFrom(entries[1..], rest)
    ensures IsTextEntry(entries[0].name, entries[0].isDirectory) ==> ReadFrom(entries, [0] + Incremented(rest))
    ensures !IsTextEntry(entries[0].name, entries[0].isDirectory) ==> ReadFrom(entries, Incremented(rest))
  {
    var e, tail, shifted := entries[0], entries[1..], Incremented(rest);
    var docs := ArchiveDocuments(tail);
    forall k | 0 <= k < |shifted|
      ensures shifted[k] < |entries| && docs[k] == Document(entries[shifted[k]].name, Sanitize(entries[shifted[k]].text))
    {
      assert entries[shifted[k]] == tail[rest[k]];
    }
    if IsTextEntry(e.name, e.isDirectory) {
      var idx := [0] + shifted;
      assert ArchiveDocuments(entries) == [Document(e.name, Sanitize(e.text))] + docs;
      forall k | 0 < k < |idx|
        ensures idx[k] < |entries| && ArchiveDocuments(entries)[k] == Document(entries[idx[k]].name, Sanitize(entries[idx[k]].text))
      {
        assert idx[k] == shifted[k - 1] && ArchiveDocuments(entries)[k] == docs[k - 1];
      }
    } else {
      assert ArchiveDocuments(entries) == docs;
    }
  }

  lemma IncrementedMember(xs: seq<nat>, i: nat)
    ensures i in Incremented(xs) <==> i > 0 && (i - 1) in xs
  {
    var r := Incremented(xs);
    if i in r {
      var j :| 0 <= j < |r| && r[j] == i;
      assert xs[j] == i - 1;
    }
    if i > 0 && (i - 1) in xs {
      var j :| 0 <= j < |xs| && xs[j] == i - 1;
      assert r[j] == i;
    }
  }

  /** The documents one file yields (main.js:265-268): the whole file when its name
      ends in ".txt" in any case, otherwise the text entries of the archive. */
  function LoadedDocuments(file: InputFile): seq<Document>
  {
    if IsTxtName(file.name) then [Document(file.name, Sanitize(file.text))]
    else ArchiveDocuments(file.entries)
  }

  /** A file whose name ends in ".txt" in any case is read whole as one sanitised
      document under its own name; any other file is read as an archive. Either way
      every document's content is sanitised. */
  lemma LoadedDocumentsSpec(file: InputFile)
    ensures IsTxtName(file.name) ==> LoadedDocuments(file) == [Document(file.name, Sanitize(file.text))]
    ensures !IsTxtName(file.name) ==> LoadedDocuments(file) == ArchiveDocuments(file.entries)
    ensures forall k, j :: 0 <= k < |LoadedDocuments(file)| && 0 <= j < |LoadedDocuments(file)[k].content| ==>
      IsKept(LoadedDocuments(file)[k].content[j])
  {
    var docs := LoadedDocuments(file);
    forall k, j | 0 <= k < |docs| && 0 <= j < |docs[k].content| ensures IsKept(docs[k].content[j]) {
      if !IsTxtName(file.name) {
        var i := ArchiveDocumentsSound(file.entries, k);
      }
    }
  }

  /** The parser the loader applies to each document: `parseDataFromTxt` with the
      page's date and number readers fixed. */
  function Parser(parsers: Parsers): string -> seq<Point>
  {
    (text: string) => ParseData(text, parsers)
  }

  /** A series as `createSeriesObject` makes it from parsed points: with the given id
      and colour, filtered points equal to its own points, which are non-empty. */
  ghost predicate IsNewSeries(s: Series, id: nat, color: Color)
  {
    && s.id == id
    && s.color == color
    && s.pointsFiltered == s.pointsOriginal
    && |s.pointsOriginal| > 0
  }

  /** The series one document adds (main.js:272-274): one series named after the
      document when it yields points, none otherwise. */
  function DocSeries(doc: Document, color: Color, id: nat, parse: string -> seq<Point>): (r: seq<Series>)
    ensures |r| <= 1
  {
    var pts := parse(doc.content);
    if pts == [] then [] else [Series(id, doc.fileName, color, pts, pts)]
  }

  /** The series that the first n documents of one file add (main.js:270-275), all
      in the file's colour, numbered from `firstId`; a document without points adds
      none. */
  function DocsSeries(docs: seq<Document>, n: nat, color: Color, firstId: nat, parse: string -> seq<Point>): (r: seq<Series>)
    requires n <= |docs|
    ensures |r| <= n
  {
    if n == 0 then []
    else
      var init := DocsSeries(docs, n - 1, color, firstId, parse);
      init + DocSeries(docs[n - 1], color, firstId + |init|, parse)
  }

  /** The series take consecutive ids from `firstId`, each holding a non-empty list
      of points with nothing filtered out. */
  ghost predicate NumberedFrom(r: seq<Series>, firstId: nat)
  {
    forall i :: 0 <= i < |r| ==> IsNewSeries(r[i], firstId + i, r[i].color)
  }

  ghost predicate InColor(r: seq<Series>, color: Color)
  {
    forall i :: 0 <= i < |r| ==> r[i].color == color
  }

  /** The series of one file take consecutive ids from `firstId`, all in the file's
      colour, each holding a non-empty list of points with nothing filtered out. */
  lemma {:induction false} DocsSeriesNew(docs: seq<Document>, n: nat, color: Color, firstId: nat, parse: string -> seq<Point>)
    requires n <= |docs|
    ensures NumberedFrom(DocsSeries(docs, n, color, firstId, parse), firstId)
    ensures InColor(DocsSeries(docs, n, color, firstId, parse), color)
  {
    if n > 0 {
      var init := DocsSeries(docs, n - 1, color, firstId, parse);
      var last := DocSeries(docs[n - 1], color, firstId + |init|, parse);
      var r := init + last;
      DocsSeriesNew(docs, n - 1, color, firstId, parse);
      assert DocsSeries(docs, n, color, firstId, parse) == r;
      forall i | 0 <= i < |r|
        ensures IsNewSeries(r[i], firstId + i, r[i].color) && r[i].color == color
      {
        if i < |init| {
          assert r[i] == init[i];
        } else {
          assert r[i] == last[0];
        }
      }
    }
  }

  /** The test "this document yields at least one point". */
  function HasPoints(parse: string -> seq<Point>): Document -> bool
  {
    (d: Document) => parse(d.content) != []
  }

  /** The series is named after, and holds the points of, the document. */
  ghost predicate MadeFrom(s: Series, d: Document, parse: string -> seq<Point>)
  {
    s.name == d.fileName && s.pointsOriginal == parse(d.content)
  }

  /** The series correspond one to one, in order, to the documents. */
  ghost predicate OnePerDocument(r: seq<Series>, kept: seq<Document>, parse: string -> seq<Point>)
  {
    |r| == |kept| && forall i :: 0 <= i < |r| ==> MadeFrom(r[i], kept[i], parse)
  }

  /** Exactly one series per document that yields points, in document order, named
      after it and holding its parsed points. */
  lemma {:induction false} DocsSeriesOnePerDocument(docs: seq<Document>, n: nat, color: Color, firstId: nat, parse: string -> seq<Point>)
    requires n <= |docs|
    ensures OnePerDocument(DocsSeries(docs, n, color, firstId, parse), Filter(docs[..n], HasPoints(parse)), parse)
  {
    if n > 0 {
      var m := n - 1;
      var keep := HasPoints(parse);
      var d := docs[m];
      var r0, k0 := DocsSeries(docs, m, color, firstId, parse), Filter(docs[..m], keep);
      var one := DocSeries(d, color, firstId + |r0|, parse);
      DocsSeriesOnePerDocument(docs, m, color, firstId, parse);
      assert m + 1 == n;
      assert DocsSeries(docs, n, color, firstId, parse) == r0 + one;
      assert docs[..n] == docs[..m] + [d];
      FilterConcat(docs[..m], [d], keep);
      FilterSingleton(d, keep);
      if parse(d.content) == [] {
        assert one == [];
        assert Filter(docs[..n], keep) == k0;
        assert r0 + one == r0;
      } else {
        var r, kept := r0 + one, k0 + [d];
        assert Filter(docs[..n], keep) == kept;
        forall i | 0 <= i < |r| ensures MadeFrom(r[i], kept[i], parse) {
          if i < |r0| {
            assert r[i] == r0[i] && kept[i] == k0[i];
          }
        }
      }
    }
  }

  /** The series added by the first n files of a batch (main.js:261-276), given the
      documents each file yields. Each file's colour is picked from the number of
      series in the store before that file. */
  function FilesSeries(batches: seq<seq<Document>>, n: nat, count: nat, firstId: nat, parse: string -> seq<Point>): (r: seq<Series>)
    requires n <= |batches|
  {
    if n == 0 then []
    else
      var init := FilesSeries(batches, n - 1, count, firstId, parse);
      var docs := batches[n - 1];
      init + DocsSeries(docs, |docs|, PickSeriesColor(count + |init|), firstId + |init|, parse)
  }

  /** The series of a batch take consecutive ids from `firstId`, each holding a
      non-empty list of points with nothing filtered out. */
  lemma {:induction false} FilesSeriesNew(batches: seq<seq<Document>>, n: nat, count: nat, firstId: nat, parse: string -> seq<Point>)
    requires n <= |batches|
    ensures NumberedFrom(FilesSeries(batches, n, count, firstId, parse), firstId)
  {
    if n > 0 {
      var init := FilesSeries(batches, n - 1, count, firstId, parse);
      var docs := batches[n - 1];
      var color := PickSeriesColor(count + |init|);
      var added := DocsSeries(docs, |docs|, color, firstId + |init|, parse);
      var r := init + added;
      FilesSeriesNew(batches, n - 1, count, firstId, parse);
      DocsSeriesNew(docs, |docs|, color, firstId + |init|, parse);
      assert FilesSeries(batches, n, count, firstId, parse) == r;
      forall i | 0 <= i < |r|
        ensures IsNewSeries(r[i], firstId + i, r[i].color)
      {
        if i < |init| {
          assert r[i] == init[i];
        } else {
          assert r[i] == added[i - |init|];
        }
      }
    }
  }

  /** The series of the first k files are a prefix of those of the first n. */
  lemma {:induction false} FilesSeriesPrefix(batches: seq<seq<Document>>, k: nat, n: nat, count: nat, firstId: nat, parse: string -> seq<Point>)
    requires k <= n <= |batches|
    ensures IsPrefix(FilesSeries(batches, k, count, firstId, parse), FilesSeries(batches, n, count, firstId, parse))
  {
    if k < n {
      var m := n - 1;
      var before, mid := FilesSeries(batches, k, count, firstId, parse), FilesSeries(batches, m, count, firstId, parse);
      var docs := batches[m];
      var added := DocsSeries(docs, |docs|, PickSeriesColor(count + |mid|), firstId + |mid|, parse);
      FilesSeriesPrefix(batches, k, m, count, firstId, parse);
      FilesSeriesNext(batches, m, count, firstId, parse, mid, docs, PickSeriesColor(count + |mid|), firstId + |mid|);
      assert m + 1 == n;
      PrefixExtended(before, mid, added);
    }
  }

  /** The series of the first n + 1 files: those of the first n, then those of file
      n's documents in the colour picked for the series before it. */
  lemma FilesSeriesNext(batches: seq<seq<Document>>, n: nat, count: nat, firstId: nat, parse: string -> seq<Point>,
                        before: seq<Series>, docs: seq<Document>, color: Color, id: nat)
    requires n < |batches| && docs == batches[n]
    requires before == FilesSeries(batches, n, count, firstId, parse)
    requires color == PickSeriesColor(count + |before|) && id == firstId + |before|
    ensures FilesSeries(batches, n + 1, count, firstId, parse) == before + DocsSeries(docs, |docs|, color, id, parse)
  {
    var m := n + 1;
    assert m - 1 == n;
    assert FilesSeries(batches, m, count, firstId, parse)
      == FilesSeries(batches, n, count, firstId, parse) + DocsSeries(batches[n], |batches[n]|, PickSeriesColor(count + |before|), firstId + |before|, parse);
  }

  /** Every series that file k adds has the colour picked for the number of series in
      the store before that file, so all series from one file share one colour. */
  lemma FileColor(batches: seq<seq<Document>>, count: nat, firstId: nat, parse: string -> seq<Point>, k: nat, i: nat)
    requires k < |batches|
    requires |FilesSeries(batches, k, count, firstId, parse)| <= i < |FilesSeries(batches, k + 1, count, firstId, parse)|
    ensures i < |FilesSeries(batches, |batches|, count, firstId, parse)|
    ensures FilesSeries(batches, |batches|, count, firstId, parse)[i].color
      == PickSeriesColor(count + |FilesSeries(batches, k, count, firstId, parse)|)
  {
    var before := FilesSeries(batches, k, count, firstId, parse);
    var upTo := FilesSeries(batches, k + 1, count, firstId, parse);
    var docs := batches[k];
    var added := DocsSeries(docs, |docs|, PickSeriesColor(count + |before|), firstId + |before|, parse);
    DocsSeriesNew(docs, |docs|, PickSeriesColor(count + |before|), firstId + |before|, parse);
    assert upTo[i] == added[i - |before|];
    FilesSeriesPrefix(batches, k + 1, |batches|, count, firstId, parse);
    assert FilesSeries(batches, |batches|, count, firstId, parse)[i] == upTo[i];
  }

  /** No document of the list yields a point. */
  ghost predicate NoPoints(docs: seq<Document>, parse: string -> seq<Point>)
  {
    forall d :: d in docs ==> parse(d.content) == []
  }

  lemma {:induction false} NoPointsNoSeries(docs: seq<Document>, n: nat, color: Color, firstId: nat, parse: string -> seq<Point>)
    requires n <= |docs|
    requires NoPoints(docs, parse)
    ensures DocsSeries(docs, n, color, firstId, parse) == []
  {
    if n > 0 {
      NoPointsNoSeries(docs, n - 1, color, firstId, parse);
      assert docs[n - 1] in docs;
    }
  }

  /** A batch whose documents all come out without points adds nothing. */
  lemma {:induction false} EmptyDocumentsAddNothing(batches: seq<seq<Document>>, n: nat, count: nat, firstId: nat, parse: string -> seq<Point>)
    requires n <= |batches|
    requires forall k :: 0 <= k < |batches| ==> NoPoints(batches[k], parse)
    ensures FilesSeries(batches, n, count, firstId, parse) == []
  {
    if n > 0 {
      var m := n - 1;
      EmptyDocumentsAddNothing(batches, m, count, firstId, parse);
      assert FilesSeries(batches, m + 1, count, firstId, parse) == [] by {
        var before := FilesSeries(batches, m, count, firstId, parse);
        var docs := batches[m];
        var color, id := PickSeriesColor(count + |before|), firstId + |before|;
        NoPointsNoSeries(docs, |docs|, color, id, parse);
        FilesSeriesNext(batches, m, count, firstId, parse, before, docs, color, id);
      }
      assert m + 1 == n;
    }
  }



}
