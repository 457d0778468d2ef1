/** Turning the text of a file into measurements: the sanitising `replace` applied
    by the two readers (main.js:194, main.js:212), the archive entry test
    (main.js:206-207) and `parseDataFromTxt` (main.js:224-243).

    `new Date(s).getTime()` and `parseFloat(s)` belong to the JavaScript runtime; the
    model receives them as a `Parsers` value, with `None` standing for NaN. */
module TextParser {
  import opened Wrappers
  import opened Seqs
  import opened Points

  /** The runtime's date and number conversions. */
  datatype Parsers = Parsers(date: string -> Option<int>, number: string -> Option<real>)

  // ---------------------------------------------------------------- sanitising

  /** The characters that survive `replace(/[^\x20-\x7E\t\r\n]/g, "")`. */
  predicate IsKept(c: char)
  {
    ' ' <= c <= '~' || c == '\t' || c == '\r' || c == '\n'
  }

  /** The text with every character outside printable ASCII, tab, CR and LF deleted. */
  function Sanitize(text: string): (r: string)
    ensures |r| <= |text|
    ensures forall i :: 0 <= i < |r| ==> IsKept(r[i])
  {
    Filter(text, IsKept)
  }

  /** Sanitising is an order-preserving deletion that keeps each allowed character
      as often as it occurs, removes every other one, and changes nothing when
      applied a second time. */
  lemma SanitizeIsExactDeletion(text: string)
    ensures IsSubsequence(Sanitize(text), text)
    ensures forall c :: multiset(Sanitize(text))[c] == if IsKept(c) then multiset(text)[c] else 0
    ensures Sanitize(Sanitize(text)) == Sanitize(text)
  {
    FilterIsSubsequence(text, IsKept);
    forall c ensures multiset(Sanitize(text))[c] == if IsKept(c) then multiset(text)[c] else 0 {
      FilterCount(text, IsKept, c);
    }
    FilterIdempotent(text, IsKept);
  }

  /** Sanitising works character by character, so it distributes over concatenation,
      and text that is already clean is left as it is. */
  lemma SanitizeLocal(a: string, b: string)
    ensures Sanitize(a + b) == Sanitize(a) + Sanitize(b)
    ensures (forall i :: 0 <= i < |a| ==> IsKept(a[i])) ==> Sanitize(a) == a
  {
    FilterConcat(a, b, IsKept);
    if forall i :: 0 <= i < |a| ==> IsKept(a[i]) {
      FilterKeepsAll(a, IsKept);
    }
  }

  // ---------------------------------------------------------------- splitting

  /** `s.split(sep)` for a one-character separator: the pieces between separators. */
  function Split(s: string, sep: char): (r: seq<string>)
    ensures |r| == multiset(s)[sep] + 1
    ensures forall i :: 0 <= i < |r| ==> sep !in r[i]
  {
    if s == [] then [""]
    else
      assert s == [s[0]] + s[1..];
      var rest := Split(s[1..], sep);
      if s[0] == sep then [""] + rest else [[s[0]] + rest[0]] + rest[1..]
  }

  /** `pieces.join(sep)`. */
  function Join(pieces: seq<string>, sep: char): string
    requires |pieces| >= 1
  {
    if |pieces| == 1 then pieces[0] else pieces[0] + [sep] + Join(pieces[1..], sep)
  }

  /** A character glued to the front of the first piece comes first in the join. */
  lemma JoinPrepend(c: char, pieces: seq<string>, sep: char)
    requires |pieces| >= 1
    ensures Join([[c] + pieces[0]] + pieces[1..], sep) == [c] + Join(pieces, sep)
  {
    var q := [[c] + pieces[0]] + pieces[1..];
    assert q[0] == [c] + pieces[0] && q[1..] == pieces[1..];
    if |pieces| > 1 {
      assert Join(q, sep) == [c] + pieces[0] + [sep] + Join(pieces[1..], sep);
    }
  }

  /** Joining the pieces of a split gives back the text. */
  lemma {:induction false} SplitThenJoin(s: string, sep: char)
    ensures Join(Split(s, sep), sep) == s
  {
    if s != [] {
      var c, tail := s[0], s[1..];
      var rest := Split(tail, sep);
      SplitThenJoin(tail, sep);
      assert s == [c] + tail;
      if c == sep {
        var q := [""] + rest;
        assert Split(s, sep) == q;
        assert q[0] == "" && q[1..] == rest;
        assert Join(q, sep) == [sep] + Join(rest, sep);
      } else {
        assert Split(s, sep) == [[c] + rest[0]] + rest[1..];
        JoinPrepend(c, rest, sep);
      }
    }
  }

  lemma {:induction false} SplitAfterPiece(a: string, t: string, sep: char)
    requires sep !in a
    ensures Split(a + t, sep) == [a + Split(t, sep)[0]] + Split(t, sep)[1..]
  {
    if a != [] {
      assert (a + t)[1..] == a[1..] + t;
      SplitAfterPiece(a[1..], t, sep);
      assert [a[0]] + (a[1..] + Split(t, sep)[0]) == a + Split(t, sep)[0];
    } else {
      assert a + t == t;
      assert a + Split(t, sep)[0] == Split(t, sep)[0];
      assert Split(t, sep) == [Split(t, sep)[0]] + Split(t, sep)[1..];
    }
  }

  lemma SplitAtSeparator(tail: string, sep: char)
    ensures Split([sep] + tail, sep) == [""] + Split(tail, sep)
  {
    assert ([sep] + tail)[1..] == tail;
  }

  lemma {:induction false} SplitWithoutSeparator(a: string, sep: char)
    requires sep !in a
    ensures Split(a, sep) == [a]
  {
    if a != [] {
      SplitWithoutSeparator(a[1..], sep);
      assert [a[0]] + a[1..] == a;
    }
  }

  lemma JoinStep(head: string, rest: seq<string>, sep: char)
    requires sep !in head && |rest| >= 1
    requires Split(Join(rest, sep), sep) == rest
    ensures Split(Join([head] + rest, sep), sep) == [head] + rest
  {
    var t := [sep] + Join(rest, sep);
    SplitAtSeparator(Join(rest, sep), sep);
    assert ([head] + rest)[1..] == rest;
    assert Join([head] + rest, sep) == head + t;
    SplitAfterPiece(head, t, sep);
    assert head + "" == head;
  }

  /** Splitting a join of separator-free pieces gives back the pieces. */
  lemma {:induction false} JoinThenSplit(pieces: seq<string>, sep: char)
    requires |pieces| >= 1
    requires forall i :: 0 <= i < |pieces| ==> sep !in pieces[i]
    ensures Split(Join(pieces, sep), sep) == pieces
  {
    if |pieces| == 1 {
      SplitWithoutSeparator(pieces[0], sep);
    } else {
      JoinThenSplit(pieces[1..], sep);
      JoinStep(pieces[0], pieces[1..], sep);
      assert [pieces[0]] + pieces[1..] == pieces;
    }
  }

  /** A line piece with one trailing carriage return removed, if it has one. */
  function DropTrailingCR(piece: string): (r: string)
    ensures piece == r + (if r == piece then "" else "\r")
    ensures r == piece <==> piece == [] || piece[|piece| - 1] != '\r'
  {
    if |piece| > 0 && piece[|piece| - 1] == '\r' then piece[..|piece| - 1] else piece
  }

  /** `text.split(/\r?\n/)`: the text is cut at every LF, and a CR immediately before
      an LF goes with it; a CR anywhere else stays in its line. */
  function SplitLines(text: string): (lines: seq<string>)
    ensures |lines| == multiset(text)['\n'] + 1
    ensures forall i :: 0 <= i < |lines| ==> '\n' !in lines[i]
  {
    var pieces := Split(text, '\n');
    seq(|pieces|, i requires 0 <= i < |pieces| =>
      if i < |pieces| - 1 then DropTrailingCR(pieces[i]) else pieces[i])
  }

  /** Every character of every piece of a split comes from the text. */
  lemma {:induction false} SplitPieceChars(s: string, sep: char, i: nat, c: char)
    requires i < |Split(s, sep)| && c in Split(s, sep)[i]
    ensures c in s
  {
    assert s != [];
    var rest := Split(s[1..], sep);
    if s[0] == sep {
      assert Split(s, sep) == [""] + rest;
      assert Split(s, sep)[i] == rest[i - 1];
      SplitPieceChars(s[1..], sep, i - 1, c);
    } else {
      assert Split(s, sep) == [[s[0]] + rest[0]] + rest[1..];
      if i == 0 {
        if c != s[0] {
          SplitPieceChars(s[1..], sep, 0, c);
        }
      } else {
        assert Split(s, sep)[i] == rest[i];
        SplitPieceChars(s[1..], sep, i, c);
      }
    }
  }

  /** Line i is the i-th LF-separated piece of the text; every line but the last
      loses one CR at its end, if it has one, and a CR anywhere else stays. */
  lemma SplitLinesPieces(text: string)
    ensures |SplitLines(text)| == |Split(text, '\n')|
    ensures forall i :: 0 <= i < |SplitLines(text)| - 1 ==> SplitLines(text)[i] == DropTrailingCR(Split(text, '\n')[i])
    ensures SplitLines(text)[|SplitLines(text)| - 1] == Split(text, '\n')[|Split(text, '\n')| - 1]
  {
  }

  /** Text without CR is cut exactly at its LFs, and joining its lines with LF gives
      it back. */
  lemma SplitLinesWithoutCR(text: string)
    requires '\r' !in text
    ensures SplitLines(text) == Split(text, '\n')
    ensures Join(SplitLines(text), '\n') == text
  {
    var pieces, lines := Split(text, '\n'), SplitLines(text);
    SplitLinesPieces(text);
    forall i | 0 <= i < |lines| ensures lines[i] == pieces[i] {
      var q := pieces[i];
      if i < |lines| - 1 && |q| > 0 && q[|q| - 1] == '\r' {
        SplitPieceChars(text, '\n', i, '\r');
        assert false;
      }
    }
    SplitThenJoin(text, '\n');
  }

  // ---------------------------------------------------------------- trimming

  /** The characters `String.prototype.trim` removes: JavaScript's WhiteSpace and
      LineTerminator code points. */
  predicate IsJsSpace(c: char)
  {
    var n := c as int;
    n == 0x09 || n == 0x0A || n == 0x0B || n == 0x0C || n == 0x0D || n == 0x20
    || n == 0xA0 || n == 0x1680 || (0x2000 <= n <= 0x200A) || n == 0x2028 || n == 0x2029
    || n == 0x202F || n == 0x205F || n == 0x3000 || n == 0xFEFF
  }

  /** Only trimmable characters, the test `!line.trim()` makes. */
  predicate IsBlank(s: string)
  {
    forall i :: 0 <= i < |s| ==> IsJsSpace(s[i])
  }

  function TrimStart(s: string): (r: string)
    ensures r == [] || !IsJsSpace(r[0])
  {
    if s != [] && IsJsSpace(s[0]) then TrimStart(s[1..]) else s
  }

  function TrimEnd(s: string): (r: string)
    ensures r == [] || !IsJsSpace(r[|r| - 1])
  {
    if s != [] && IsJsSpace(s[|s| - 1]) then TrimEnd(s[..|s| - 1]) else s
  }

  /** `s.trim()`. */
  function Trim(s: string): string
  {
    TrimEnd(TrimStart(s))
  }

  lemma {:induction false} TrimStartEmpty(s: string)
    ensures TrimStart(s) == [] <==> IsBlank(s)
  {
    if s != [] && IsJsSpace(s[0]) {
      TrimStartEmpty(s[1..]);
      assert IsBlank(s) <==> IsBlank(s[1..]) by {
        if IsBlank(s[1..]) {
          forall i | 0 <= i < |s| ensures IsJsSpace(s[i]) {
            if i > 0 { assert s[i] == s[1..][i - 1]; }
          }
        }
      }
    }
  }

  lemma {:induction false} TrimEndEmpty(s: string)
    ensures TrimEnd(s) == [] <==> IsBlank(s)
  {
    if s != [] && IsJsSpace(s[|s| - 1]) {
      TrimEndEmpty(s[..|s| - 1]);
      assert IsBlank(s) <==> IsBlank(s[..|s| - 1]) by {
        if IsBlank(s[..|s| - 1]) {
          forall i | 0 <= i < |s| ensures IsJsSpace(s[i]) {
            if i < |s| - 1 { assert s[i] == s[..|s| - 1][i]; }
          }
        }
      }
    }
  }

  /** A line trims to the empty string exactly when it holds only trimmable characters. */
  lemma TrimEmptyIffBlank(s: string)
    ensures Trim(s) == [] <==> IsBlank(s)
  {
    var t := TrimStart(s);
    TrimStartEmpty(s);
    TrimEndEmpty(t);
    if t != [] {
      assert !IsJsSpace(t[0]);
    }
  }

  // ---------------------------------------------------------------- parsing

  /** What one line of the file contributes: a point when the line is not blank, has
      at least three tab-separated fields and both field 0 (a date) and field 2 (a
      number) convert; field 1 is never looked at. */
  function ParseLine(line: string, parsers: Parsers): (r: Option<Point>)
    ensures r.Some? <==>
      && !IsBlank(line)
      && |Split(line, '\t')| >= 3
      && parsers.date(Split(line, '\t')[0]).Some?
      && parsers.number(Split(line, '\t')[2]).Some?
    ensures r.Some? ==>
      r.value == Point(parsers.date(Split(line, '\t')[0]).value, parsers.number(Split(line, '\t')[2]).value)
  {
    TrimEmptyIffBlank(line);
    if Trim(line) == [] then None
    else
      var parts := Split(line, '\t');
      if |parts| < 3 then None
      else
        match (parsers.date(parts[0]), parsers.number(parts[2]))
        case (Some(t), Some(v)) => Some(Point(t, v))
        case _ => None
  }

  /** The points of the accepted lines, in line order. */
  function AcceptedPoints(lines: seq<string>, parsers: Parsers): (r: seq<Point>)
    ensures |r| <= |lines|
  {
    if lines == [] then []
    else
      AcceptedPoints(lines[..|lines| - 1], parsers) + LinePoints(lines[|lines| - 1], parsers)
  }

  /** The points of one line: the point it parses to, if any. */
  function LinePoints(line: string, parsers: Parsers): (r: seq<Point>)
    ensures |r| <= 1
  {
    match ParseLine(line, parsers) case Some(p) => [p] case None => []
  }

  /** One more line adds its own points after those of the lines before it. */
  lemma AcceptedPointsNext(lines: seq<string>, i: nat, parsers: Parsers)
    requires i < |lines|
    ensures AcceptedPoints(lines[..i + 1], parsers) == AcceptedPoints(lines[..i], parsers) + LinePoints(lines[i], parsers)
  {
    assert lines[..i + 1][..i] == lines[..i];
  }

  /** Some line of `lines` parses to `p`. */
  ghost predicate SomeLineYields(lines: seq<string>, parsers: Parsers, p: Point)
  {
    exists i :: 0 <= i < |lines| && ParseLine(lines[i], parsers) == Some(p)
  }

  lemma SomeLineYieldsSplit(lines: seq<string>, parsers: Parsers, p: Point)
    requires lines != []
    ensures SomeLineYields(lines, parsers, p) <==>
      SomeLineYields(lines[..|lines| - 1], parsers, p) || ParseLine(lines[|lines| - 1], parsers) == Some(p)
  {
    var init := lines[..|lines| - 1];
    if SomeLineYields(lines, parsers, p) {
      var i :| 0 <= i < |lines| && ParseLine(lines[i], parsers) == Some(p);
      if i < |lines| - 1 {
        assert init[i] == lines[i];
      }
    }
    if SomeLineYields(init, parsers, p) {
      var i :| 0 <= i < |init| && ParseLine(init[i], parsers) == Some(p);
      assert lines[i] == init[i];
    }
  }

  /** A point is accepted exactly when some line parses to it. */
  lemma {:induction false} AcceptedPointsFromLines(lines: seq<string>, parsers: Parsers, p: Point)
    ensures p in AcceptedPoints(lines, parsers) <==> SomeLineYields(lines, parsers, p)
  {
    if lines != [] {
      AcceptedPointsFromLines(lines[..|lines| - 1], parsers, p);
      SomeLineYieldsSplit(lines, parsers, p);
    }
  }

  /** What `parseDataFromTxt` returns: the accepted points, sorted by timestamp. */
  function ParseData(text: string, parsers: Parsers): (r: seq<Point>)
    ensures Sorted(r)
  {
    SortByTime(AcceptedPoints(SplitLines(text), parsers))
  }

  /** The parse result is a sorted permutation of the accepted points, no longer than
      the text has lines, and holds a point exactly when some line parses to it. */
  lemma ParseDataSpec(text: string, parsers: Parsers)
    ensures Sorted(ParseData(text, parsers))
    ensures multiset(ParseData(text, parsers)) == multiset(AcceptedPoints(SplitLines(text), parsers))
    ensures |ParseData(text, parsers)| <= |SplitLines(text)|
    ensures forall p :: p in ParseData(text, parsers) <==> SomeLineYields(SplitLines(text), parsers, p)
  {
    var lines := SplitLines(text);
    var accepted := AcceptedPoints(lines, parsers);
    var r := ParseData(text, parsers);
    forall p ensures p in r <==> SomeLineYields(lines, parsers, p) {
      AcceptedPointsFromLines(lines, parsers, p);
      assert p in r <==> p in multiset(r);
    }
  }

  /** `parseDataFromTxt`: one pass over the lines collecting the accepted points,
      then a sort by timestamp. */
  method ParseDataFromTxt(text: string, parsers: Parsers) returns (points: seq<Point>)
    ensures points == ParseData(text, parsers)
  {
    var lines := SplitLines(text);
    var accepted: seq<Point> := [];
    for i := 0 to |lines|
      invariant accepted == AcceptedPoints(lines[..i], parsers)
    {
      AcceptedPointsNext(lines, i, parsers);
      var line := lines[i];
      TrimEmptyIffBlank(line);
      if Trim(line) == [] {
        assert LinePoints(line, parsers) == [];
        continue;
      }
      var parts := Split(line, '\t');
      if |parts| < 3 {
        assert LinePoints(line, parsers) == [];
        continue;
      }
      var t := parsers.date(parts[0]);
      var v := parsers.number(parts[2]);
      if t.None? || v.None? {
        assert LinePoints(line, parsers) == [];
        continue;
      }
      assert LinePoints(line, parsers) == [Point(t.value, v.value)];
      accepted := accepted + [Point(t.value, v.value)];
    }
    assert lines[..|lines|] == lines;
    points := SortByTime(accepted);
  }

  // ---------------------------------------------------------------- archive entries

  /** `toLowerCase` on one character, for ASCII letters only. For the ".txt" test
      below this agrees with JavaScript's full case mapping: no other character
      lower-cases to '.', 't' or 'x'. */
  function LowerChar(c: char): (r: char)
    ensures 'A' <= c <= 'Z' ==> r as int == c as int + 32
    ensures !('A' <= c <= 'Z') ==> r == c
  {
    if 'A' <= c <= 'Z' then (c as int + 32) as char else c
  }

  /** `toLowerCase` on a whole string. */
  function AsciiLower(s: string): (r: string)
    ensures |r| == |s|
    ensures forall i :: 0 <= i < |s| ==> r[i] == LowerChar(s[i])
  {
    seq(|s|, i requires 0 <= i < |s| => LowerChar(s[i]))
  }

  /** `name.toLowerCase().endsWith(".txt")`, checked on the last four characters. */
  predicate IsTxtName(name: string)
  {
    var n := |name|;
    && n >= 4
    && LowerChar(name[n - 4]) == '.'
    && LowerChar(name[n - 3]) == 't'
    && LowerChar(name[n - 2]) == 'x'
    && LowerChar(name[n - 1]) == 't'
  }

  /** The test agrees with lowering the whole name and comparing its last four
      characters with ".txt". */
  lemma TxtNameIsLoweredSuffix(name: string)
    ensures IsTxtName(name) <==> |name| >= 4 && AsciiLower(name)[|name| - 4..] == ".txt"
  {
    var lower := AsciiLower(name);
    if |name| >= 4 {
      var n := |name|;
      assert lower[n - 4..] == [lower[n - 4], lower[n - 3], lower[n - 2], lower[n - 1]];
    }
  }

  /** The extension test ignores case and nothing else. */
  lemma TxtNameCaseInsensitive(name: string)
    ensures IsTxtName(name) <==>
      && |name| >= 4
      && name[|name| - 4] == '.'
      && (name[|name| - 3] == 't' || name[|name| - 3] == 'T')
      && (name[|name| - 2] == 'x' || name[|name| - 2] == 'X')
      && (name[|name| - 1] == 't' || name[|name| - 1] == 'T')
  {
  }

  /** An archive entry is read when it is not a directory and its name ends in ".txt"
      in any case (main.js:206-207). */
  predicate IsTextEntry(name: string, isDirectory: bool)
  {
    !isDirectory && IsTxtName(name)
  }
}
