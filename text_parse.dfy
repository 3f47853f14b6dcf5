/**
 * The two `handleParseText` pipelines that turn pasted text into a grid of
 * cells, and the preview slice taken from the result.
 *
 * src/App.tsx:40-44:         trim, split on /\r?\n/, drop blank lines,
 *                            split each line on /\t|;/, trim every cell.
 * src/App.default.tsx:41:    trim, split on '\n', split each line on '\t'.
 */
module TextParse {
  import opened Text
  import opened Bom

  /** The cell separators of `/\t|;/`. */
  const CellSeparators: set<char> := {'\t', ';'}

  /** The character `/\r?\n/` may take in front of the line feed. */
  function DropCarriageReturn(p: string): (r: string)
    ensures r == p || (p == r + ['\r'])
  {
    if |p| > 0 && p[|p| - 1] == '\r' then p[..|p| - 1] else p
  }

  /**
   * `s.split(/\r?\n/)`: the same pieces as splitting on the line feed, except
   * that each piece followed by a line feed loses one carriage return at its
   * end, which the regular expression takes as part of the separator.
   */
  function SplitLines(s: string): (lines: seq<string>)
    ensures |lines| == |Split(s, {'\n'})| && |lines| >= 1
    ensures FreeOf(lines, {'\n'})
  {
    var parts := Split(s, {'\n'});
    seq(|parts|, i requires 0 <= i < |parts| =>
      if i < |parts| - 1 then DropCarriageReturn(parts[i]) else parts[i])
  }

  /** `lines.filter(line => line.trim().length > 0)`. */
  function NonBlankLines(lines: seq<string>): (kept: seq<string>)
    ensures |kept| <= |lines|
    ensures forall i :: 0 <= i < |kept| ==> !IsBlank(kept[i])
  {
    if lines == [] then []
    else (if |Trim(lines[0])| > 0 then [lines[0]] else []) + NonBlankLines(lines[1..])
  }

  /** `line.split(/\t|;/).map(cell => cell.trim())`. */
  function ParseRow(line: string): (row: seq<string>)
    ensures |row| == |Split(line, CellSeparators)| && |row| >= 1
  {
    var cells := Split(line, CellSeparators);
    seq(|cells|, i requires 0 <= i < |cells| => Trim(cells[i]))
  }

  /** The grid `handleParseText` of src/App.tsx builds from the pasted text. */
  function ParseText(raw: string): (g: Grid)
    ensures forall i :: 0 <= i < |g| ==> |g[i]| >= 1
  {
    var lines := NonBlankLines(SplitLines(Trim(raw)));
    seq(|lines|, i requires 0 <= i < |lines| => ParseRow(lines[i]))
  }

  /** The grid `handleParseText` of src/App.default.tsx builds, before its five-row cut. */
  function ParseTextTabs(raw: string): (g: Grid)
    ensures |g| >= 1
    ensures forall i :: 0 <= i < |g| ==> |g[i]| >= 1 && FreeOf(g[i], {'\t'})
  {
    var lines := Split(Trim(raw), {'\n'});
    seq(|lines|, i requires 0 <= i < |lines| => Split(lines[i], {'\t'}))
  }

  /** `rows.slice(0, 5)`: the first five rows, or all of them when there are fewer. */
  function PreviewRows(g: Grid): (preview: Grid)
    ensures |preview| == if |g| < 5 then |g| else 5
    ensures forall i :: 0 <= i < |preview| ==> preview[i] == g[i]
  {
    if |g| < 5 then g else g[..5]
  }

  /** Tab-separated text with one line per row: what a spreadsheet puts on the clipboard. */
  function RenderGrid(g: Grid): string {
    JoinWith(RenderLines(g), '\n')
  }

  function RenderLines(g: Grid): (lines: seq<string>)
    ensures |lines| == |g|
  {
    seq(|g|, i requires 0 <= i < |g| => JoinWith(g[i], '\t'))
  }

  // ---------------------------------------------------------------------
  // Properties of the src/App.tsx parser
  // ---------------------------------------------------------------------

  /**
   * Every parsed row has at least one cell, every cell is its own trim, and
   * no cell holds a tab or a semicolon.
   */
  lemma ParsedCellsAreClean(raw: string)
    ensures forall i :: 0 <= i < |ParseText(raw)| ==> |ParseText(raw)[i]| >= 1
    ensures forall i, j :: 0 <= i < |ParseText(raw)| && 0 <= j < |ParseText(raw)[i]| ==>
              Trim(ParseText(raw)[i][j]) == ParseText(raw)[i][j] && NoneIn(ParseText(raw)[i][j], CellSeparators)
  {
    var g := ParseText(raw);
    var lines := NonBlankLines(SplitLines(Trim(raw)));
    forall i, j | 0 <= i < |g| && 0 <= j < |g[i]|
      ensures Trim(g[i][j]) == g[i][j] && NoneIn(g[i][j], CellSeparators)
    {
      var cells := Split(lines[i], CellSeparators);
      assert g[i] == ParseRow(lines[i]);
      CleanParsedCell(cells, j);
    }
  }

  /** A trimmed piece of a split is its own trim and holds no separator. */
  lemma CleanParsedCell(cells: seq<string>, j: nat)
    requires FreeOf(cells, CellSeparators) && j < |cells|
    ensures Trim(Trim(cells[j])) == Trim(cells[j]) && NoneIn(Trim(cells[j]), CellSeparators)
  {
    TrimIdempotent(cells[j]);
    assert NoneIn(cells[j], CellSeparators);
    TrimInfixNoneIn(cells[j], CellSeparators);
  }

  lemma TrimInfixNoneIn(s: string, seps: set<char>)
    requires NoneIn(s, seps)
    ensures NoneIn(Trim(s), seps)
  {
    var k := TrimOffset(s);
    var t := Trim(s);
    assert t == s[k..k + |t|];
    forall j | 0 <= j < |t| ensures t[j] !in seps {
      assert t[j] == s[k + j];
    }
  }

  /** Text yields no rows exactly when it is empty or whitespace only (the alert of src/App.tsx:46). */
  lemma {:induction false} ParseTextEmptyIff(raw: string)
    ensures ParseText(raw) == [] <==> IsBlank(raw)
  {
    var t := Trim(raw);
    var lines := SplitLines(t);
    if IsBlank(raw) {
      assert t == [];
      assert Split(t, {'\n'}) == [""];
      assert lines == [""];
      assert NonBlankLines(lines) == [] + NonBlankLines([]);
    } else {
      assert t != [] && !IsWhitespace(t[0]);
      SplitFirstCharacter(t, {'\n'});
      var piece := Split(t, {'\n'})[0];
      assert lines[0] == piece || lines[0] == DropCarriageReturn(piece);
      assert lines[0][0] == t[0];
      assert !IsBlank(lines[0]);
      assert |NonBlankLines(lines)| >= 1;
    }
  }

  /** A cell a parse can give back unchanged: trimmed, without separators or line breaks. */
  predicate CleanCell(c: string) {
    Trimmed(c) && NoneIn(c, {'\t', ';', '\n', '\r'})
  }

  /**
   * A grid the src/App.tsx parser reproduces from its rendering: every row
   * has a cell and a non-empty cell, every cell is clean, and the text
   * neither starts nor ends with an empty cell (the whole-text trim would
   * swallow the tab next to it).
   */
  predicate CleanGrid(g: Grid) {
    && (forall i :: 0 <= i < |g| ==> |g[i]| >= 1 && !IsBlank(JoinWith(g[i], '\t')))
    && (forall i, j :: 0 <= i < |g| && 0 <= j < |g[i]| ==> CleanCell(g[i][j]))
    && (|g| > 0 ==> g[0][0] != "" && g[|g| - 1][|g[|g| - 1]| - 1] != "")
  }

  /** Lines without a line feed or carriage return come back from their '\n'-join. */
  lemma SplitLinesJoin(lines: seq<string>)
    requires |lines| >= 1 && FreeOf(lines, {'\n', '\r'})
    ensures SplitLines(JoinWith(lines, '\n')) == lines
  {
    assert FreeOf(lines, {'\n'}) by {
      forall i | 0 <= i < |lines| ensures NoneIn(lines[i], {'\n'}) {
        assert NoneIn(lines[i], {'\n', '\r'});
      }
    }
    SplitJoin(lines, '\n', {'\n'});
    var r := SplitLines(JoinWith(lines, '\n'));
    forall i | 0 <= i < |lines| ensures r[i] == lines[i] {
      assert NoneIn(lines[i], {'\n', '\r'});
      if |lines[i]| > 0 {
        assert lines[i][|lines[i]| - 1] != '\r';
      }
    }
  }

  lemma {:induction false} NonBlankLinesKeepsAll(lines: seq<string>)
    requires forall i :: 0 <= i < |lines| ==> !IsBlank(lines[i])
    ensures NonBlankLines(lines) == lines
  {
    if lines != [] {
      NonBlankLinesKeepsAll(lines[1..]);
      assert [lines[0]] + lines[1..] == lines;
    }
  }

  /** A single line passes the filter exactly when it is not blank. */
  lemma NonBlankLinesSingle(line: string)
    ensures NonBlankLines([line]) == if IsBlank(line) then [] else [line]
  {
    assert [line][1..] == [];
  }

  /** The filter works line by line: filtering a concatenation filters each half, in order. */
  lemma {:induction false} NonBlankLinesAppend(a: seq<string>, b: seq<string>)
    ensures NonBlankLines(a + b) == NonBlankLines(a) + NonBlankLines(b)
  {
    if a != [] {
      assert a + b == [a[0]] + (a[1..] + b) && a == [a[0]] + a[1..];
      NonBlankLinesCons(a[0], a[1..] + b);
      NonBlankLinesAppend(a[1..], b);
      NonBlankLinesCons(a[0], a[1..]);
    } else {
      assert a + b == b;
    }
  }

  /** The first line is filtered on its own. */
  lemma NonBlankLinesCons(x: string, rest: seq<string>)
    ensures NonBlankLines([x] + rest) == NonBlankLines([x]) + NonBlankLines(rest)
  {
    assert ([x] + rest)[0] == x && ([x] + rest)[1..] == rest && [x][1..] == [];
  }

  /** The filter keeps every non-blank line, and only lines of its input. */
  lemma {:induction false} NonBlankLinesMembers(lines: seq<string>)
    ensures forall i :: 0 <= i < |lines| && !IsBlank(lines[i]) ==> lines[i] in NonBlankLines(lines)
    ensures forall x :: x in NonBlankLines(lines) ==> x in lines
  {
    if lines != [] {
      NonBlankLinesMembers(lines[1..]);
      forall i | 0 <= i < |lines| && !IsBlank(lines[i]) ensures lines[i] in NonBlankLines(lines) {
        if i > 0 {
          assert lines[i] == lines[1..][i - 1];
        }
      }
      forall x | x in NonBlankLines(lines) ensures x in lines {
        if x != lines[0] {
          assert x in NonBlankLines(lines[1..]);
        }
      }
    }
  }

  /** A non-blank line never parses to the single empty cell. */
  lemma RowOfNonBlankLine(line: string)
    requires !IsBlank(line)
    ensures ParseRow(line) != [""]
  {
    if |ParseRow(line)| == 1 {
      SplitSingle(line, CellSeparators);
      assert ParseRow(line)[0] == Trim(line);
    }
  }

  /** No parsed row is the row of a blank line, [""]. */
  lemma ParsedRowsNotBlank(raw: string)
    ensures forall i :: 0 <= i < |ParseText(raw)| ==> ParseText(raw)[i] != [""]
  {
    var lines := NonBlankLines(SplitLines(Trim(raw)));
    forall i | 0 <= i < |ParseText(raw)| ensures ParseText(raw)[i] != [""] {
      RowOfNonBlankLine(lines[i]);
    }
  }

  /** Every non-blank line of the trimmed text gives a row of the parse. */
  lemma NonBlankLineParsed(raw: string, line: string)
    requires line in SplitLines(Trim(raw)) && !IsBlank(line)
    ensures ParseRow(line) in ParseText(raw)
  {
    var all := SplitLines(Trim(raw));
    var i :| 0 <= i < |all| && all[i] == line;
    NonBlankLinesMembers(all);
    var kept := NonBlankLines(all);
    var j :| 0 <= j < |kept| && kept[j] == line;
    assert ParseText(raw)[j] == ParseRow(line);
  }

  /** Cells without the separators and line breaks of the parser. */
  lemma CleanRowFree(row: seq<string>)
    requires forall j :: 0 <= j < |row| ==> CleanCell(row[j])
    ensures FreeOf(row, CellSeparators) && FreeOf(row, {'\n', '\r'})
  {
    forall j | 0 <= j < |row| ensures NoneIn(row[j], CellSeparators) && NoneIn(row[j], {'\n', '\r'}) {
      assert CleanCell(row[j]);
      assert NoneIn(row[j], {'\t', ';', '\n', '\r'});
    }
  }

  /** A row of clean cells comes back from its tab-join. */
  lemma ParseRowJoin(row: seq<string>)
    requires |row| >= 1 && forall j :: 0 <= j < |row| ==> CleanCell(row[j])
    ensures ParseRow(JoinWith(row, '\t')) == row
  {
    CleanRowFree(row);
    SplitJoin(row, '\t', CellSeparators);
    var r := ParseRow(JoinWith(row, '\t'));
    forall j | 0 <= j < |row| ensures r[j] == row[j] {
      assert CleanCell(row[j]);
      TrimOfTrimmed(row[j]);
    }
  }

  /** The rendered lines of a clean grid hold no line break and none is blank. */
  lemma CleanGridLines(g: Grid)
    requires CleanGrid(g)
    ensures FreeOf(RenderLines(g), {'\n', '\r'})
    ensures forall i :: 0 <= i < |RenderLines(g)| ==> !IsBlank(RenderLines(g)[i])
  {
    var lines := RenderLines(g);
    forall i | 0 <= i < |lines| ensures NoneIn(lines[i], {'\n', '\r'}) && !IsBlank(lines[i]) {
      CleanRowFree(g[i]);
      JoinNoneIn(g[i], '\t', {'\n', '\r'});
    }
  }

  /** The rendering of a clean grid starts and ends with a non-whitespace character on its first and last lines. */
  lemma CleanGridEnds(g: Grid)
    requires CleanGrid(g) && |g| >= 1
    ensures var lines := RenderLines(g);
            |lines[0]| >= 1 && !IsWhitespace(lines[0][0]) &&
            |lines[|lines| - 1]| >= 1 && !IsWhitespace(lines[|lines| - 1][|lines[|lines| - 1]| - 1])
  {
    var first := g[0][0];
    var lastRow := g[|g| - 1];
    var last := lastRow[|lastRow| - 1];
    assert CleanCell(first) && CleanCell(last);
    JoinFirst(g[0], '\t');
    JoinLast(lastRow, '\t');
  }

  /** A '\n'-join of lines that start and end with non-whitespace is its own trim. */
  lemma JoinTrimmed(lines: seq<string>)
    requires |lines| >= 1 && |lines[0]| >= 1 && |lines[|lines| - 1]| >= 1
    requires !IsWhitespace(lines[0][0]) && !IsWhitespace(lines[|lines| - 1][|lines[|lines| - 1]| - 1])
    ensures Trim(JoinWith(lines, '\n')) == JoinWith(lines, '\n')
  {
    JoinFirst(lines, '\n');
    JoinLast(lines, '\n');
    TrimOfTrimmed(JoinWith(lines, '\n'));
  }

  /** The whole-text trim leaves the rendering of a clean grid alone. */
  lemma CleanGridTrimmed(g: Grid)
    requires CleanGrid(g) && |g| >= 1
    ensures Trim(RenderGrid(g)) == RenderGrid(g)
  {
    var lines := RenderLines(g);
    assert RenderGrid(g) == JoinWith(lines, '\n');
    assert |lines[0]| >= 1 && !IsWhitespace(lines[0][0]) && |lines[|lines| - 1]| >= 1 && !IsWhitespace(lines[|lines| - 1][|lines[|lines| - 1]| - 1]) by {
      CleanGridEnds(g);
    }
    JoinTrimmed(lines);
  }

  /**
   * Parsing the rendering of a clean grid gives the grid back: the parser
   * splits text as a spreadsheet writes it.
   */
  lemma ParseRenderRoundTrip(g: Grid)
    requires CleanGrid(g)
    ensures ParseText(RenderGrid(g)) == g
  {
    if |g| == 0 {
      assert RenderGrid(g) == "";
      EmptyTextParsesToNothing();
    } else {
      var lines := RenderLines(g);
      var text := RenderGrid(g);
      var kept := NonBlankLines(SplitLines(Trim(text)));
      assert kept == lines by {
        CleanGridLines(g);
        CleanGridTrimmed(g);
        SplitLinesJoin(lines);
        NonBlankLinesKeepsAll(lines);
      }
      ParseLines(g, text, lines);
    }
  }

  lemma ParseLines(g: Grid, text: string, lines: seq<string>)
    requires CleanGrid(g) && lines == RenderLines(g)
    requires NonBlankLines(SplitLines(Trim(text))) == lines
    ensures ParseText(text) == g
  {
    var parsed := ParseText(text);
    assert |parsed| == |g|;
    forall i | 0 <= i < |g| ensures parsed[i] == g[i] {
      assert parsed[i] == ParseRow(lines[i]);
      ParseRowJoin(g[i]);
    }
  }

  lemma EmptyTextParsesToNothing()
    ensures ParseText("") == []
  {
    assert Trim("") == "";
    assert Split("", {'\n'}) == [""];
    assert SplitLines("") == [""];
    assert NonBlankLines([""]) == [] + NonBlankLines([]);
  }

  lemma ExampleRendering()
    ensures RenderGrid([["A1", "10"], ["B2", "5"]]) == "A1\t10\nB2\t5"
  {
    var g: Grid := [["A1", "10"], ["B2", "5"]];
    assert JoinWith(g[0], '\t') == "A1\t10" by {
      assert g[0][1..] == ["10"];
    }
    assert JoinWith(g[1], '\t') == "B2\t5" by {
      assert g[1][1..] == ["5"];
    }
    var lines := RenderLines(g);
    assert lines == ["A1\t10", "B2\t5"];
    assert lines[1..] == ["B2\t5"];
  }

  /** The example grid is clean. */
  lemma ExampleGridClean()
    ensures CleanGrid([["A1", "10"], ["B2", "5"]])
  {
    var g: Grid := [["A1", "10"], ["B2", "5"]];
    forall i, j | 0 <= i < |g| && 0 <= j < |g[i]| ensures CleanCell(g[i][j]) {
      var c := g[i][j];
      assert forall k :: 0 <= k < |c| ==> c[k] in "AB0125";
    }
    forall i | 0 <= i < |g| ensures !IsBlank(JoinWith(g[i], '\t')) {
      JoinFirst(g[i], '\t');
    }
  }

  /** The example `"A1\t10\nB2\t5"` parses to two rows of two cells. */
  lemma PastedExample()
    ensures ParseText("A1\t10\nB2\t5") == [["A1", "10"], ["B2", "5"]]
  {
    ExampleRendering();
    ExampleGridClean();
    ParseRenderRoundTrip([["A1", "10"], ["B2", "5"]]);
  }

  // ---------------------------------------------------------------------
  // The "continue" button of step 1
  // ---------------------------------------------------------------------

  /**
   * `disabled={!rawData.trim()}` (src/components/steps/Step1Upload.tsx:31,
   * src/App.default.tsx:162), negated: the button that runs the parser is enabled.
   */
  predicate ContinueEnabled(raw: string): (enabled: bool)
    ensures enabled <==> !IsBlank(raw)
  {
    Trim(raw) != ""
  }

  /** Under the src/App.tsx parser the button is enabled exactly when the parse yields rows. */
  lemma ContinueMatchesParse(raw: string)
    ensures ContinueEnabled(raw) <==> ParseText(raw) != []
  {
    ParseTextEmptyIff(raw);
  }

  /**
   * Under the src/App.default.tsx parser the button is enabled exactly when
   * the first cell of the first row is non-empty; otherwise the parse is [[""]].
   */
  lemma ContinueMatchesTabs(raw: string)
    ensures |ParseTextTabs(raw)| >= 1 && |ParseTextTabs(raw)[0]| >= 1
    ensures ContinueEnabled(raw) <==> ParseTextTabs(raw)[0][0] != ""
    ensures !ContinueEnabled(raw) ==> ParseTextTabs(raw) == [[""]]
  {
    var t := Trim(raw);
    if t == "" {
      assert Split("", {'\n'}) == [""];
    }
    if t != "" {
      assert !IsWhitespace(t[0]);
      SplitFirstCharacter(t, {'\n'});
      var line := Split(t, {'\n'})[0];
      SplitFirstCharacter(line, {'\t'});
      assert ParseTextTabs(raw)[0] == Split(line, {'\t'});
    }
  }

  /** Every line but the last followed by a carriage return: joined with '\n', Windows line ends. */
  function WithCarriageReturns(lines: seq<string>): (r: seq<string>)
    ensures |r| == |lines|
  {
    seq(|lines|, i requires 0 <= i < |lines| => if i < |lines| - 1 then lines[i] + "\r" else lines[i])
  }

  /** The tab-separated rendering of a grid with "\r\n" line ends. */
  function RenderGridCrLf(g: Grid): string {
    JoinWith(WithCarriageReturns(RenderLines(g)), '\n')
  }

  /** `/\r?\n/` splits Windows line ends back into the lines. */
  lemma SplitLinesCrLf(lines: seq<string>)
    requires |lines| >= 1 && FreeOf(lines, {'\n', '\r'})
    ensures SplitLines(JoinWith(WithCarriageReturns(lines), '\n')) == lines
  {
    var crs := WithCarriageReturns(lines);
    assert FreeOf(crs, {'\n'}) by {
      forall i | 0 <= i < |crs| ensures NoneIn(crs[i], {'\n'}) {
        assert NoneIn(lines[i], {'\n', '\r'});
      }
    }
    SplitJoin(crs, '\n', {'\n'});
    var r := SplitLines(JoinWith(crs, '\n'));
    forall i | 0 <= i < |lines| ensures r[i] == lines[i] {
      assert NoneIn(lines[i], {'\n', '\r'});
      if i < |lines| - 1 {
        assert (lines[i] + "\r")[..|lines[i]|] == lines[i];
      }
    }
  }

  /** A Windows join of lines that start and end with non-whitespace is its own trim. */
  lemma CrLfTrimmed(lines: seq<string>)
    requires |lines| >= 1 && |lines[0]| >= 1 && |lines[|lines| - 1]| >= 1
    requires !IsWhitespace(lines[0][0]) && !IsWhitespace(lines[|lines| - 1][|lines[|lines| - 1]| - 1])
    ensures Trim(JoinWith(WithCarriageReturns(lines), '\n')) == JoinWith(WithCarriageReturns(lines), '\n')
  {
    var crs := WithCarriageReturns(lines);
    assert crs[0][0] == lines[0][0];
    assert crs[|crs| - 1] == lines[|lines| - 1];
    JoinFirst(crs, '\n');
    JoinLast(crs, '\n');
    TrimOfTrimmed(JoinWith(crs, '\n'));
  }

  /**
   * Text copied with Windows line ends parses like text with plain line
   * feeds: the src/App.tsx parser gives every clean grid back.
   */
  lemma ParseRenderCrLfRoundTrip(g: Grid)
    requires CleanGrid(g) && |g| >= 1
    ensures ParseText(RenderGridCrLf(g)) == g
  {
    var lines := RenderLines(g);
    var text := RenderGridCrLf(g);
    CrLfGridTrimmed(g);
    assert SplitLines(text) == lines by {
      CleanGridLines(g);
      SplitLinesCrLf(lines);
    }
    assert NonBlankLines(lines) == lines by {
      CleanGridLines(g);
      NonBlankLinesKeepsAll(lines);
    }
    ParseLines(g, text, lines);
  }

  /** The whole-text trim leaves the Windows rendering of a clean grid alone. */
  lemma CrLfGridTrimmed(g: Grid)
    requires CleanGrid(g) && |g| >= 1
    ensures Trim(RenderGridCrLf(g)) == RenderGridCrLf(g)
  {
    var lines := RenderLines(g);
    assert RenderGridCrLf(g) == JoinWith(WithCarriageReturns(lines), '\n');
    assert |lines[0]| >= 1 && !IsWhitespace(lines[0][0]) && |lines[|lines| - 1]| >= 1 && !IsWhitespace(lines[|lines| - 1][|lines[|lines| - 1]| - 1]) by {
      CleanGridEnds(g);
    }
    CrLfTrimmed(lines);
  }

  // ---------------------------------------------------------------------
  // Properties of the src/App.default.tsx parser
  // ---------------------------------------------------------------------

  /**
   * The tab-only parser loses nothing but the surrounding whitespace: its
   * rows, joined at tabs and then at line feeds, are the trimmed text.
   */
  lemma RenderParseTabs(raw: string)
    ensures RenderGrid(ParseTextTabs(raw)) == Trim(raw)
  {
    var lines := Split(Trim(raw), {'\n'});
    var g := ParseTextTabs(raw);
    forall i | 0 <= i < |lines| ensures RenderLines(g)[i] == lines[i] {
      JoinSplit(lines[i], '\t');
    }
    assert RenderLines(g) == lines;
    JoinSplit(Trim(raw), '\n');
  }

  /**
   * Parsing the rendering of a grid whose cells hold no tab or line feed, and
   * whose rendering the trim leaves alone, gives the grid back.
   */
  lemma ParseTabsRenderRoundTrip(g: Grid)
    requires |g| >= 1
    requires forall i :: 0 <= i < |g| ==> |g[i]| >= 1 && FreeOf(g[i], {'\t', '\n'})
    requires Trim(RenderGrid(g)) == RenderGrid(g)
    ensures ParseTextTabs(RenderGrid(g)) == g
  {
    var lines := RenderLines(g);
    TabRowsFree(g);
    assert Split(RenderGrid(g), {'\n'}) == lines by {
      SplitJoin(lines, '\n', {'\n'});
    }
    ParseTabsLines(g, RenderGrid(g), lines);
  }

  /** Rows free of tabs and line feeds: each is tab-free, and each rendered line is line-feed-free. */
  lemma TabRowsFree(g: Grid)
    requires forall i :: 0 <= i < |g| ==> FreeOf(g[i], {'\t', '\n'})
    ensures forall i :: 0 <= i < |g| ==> FreeOf(g[i], {'\t'})
    ensures FreeOf(RenderLines(g), {'\n'})
  {
    var lines := RenderLines(g);
    forall i | 0 <= i < |g| ensures FreeOf(g[i], {'\t'}) && FreeOf(g[i], {'\n'}) {
      forall j | 0 <= j < |g[i]| ensures NoneIn(g[i][j], {'\t'}) && NoneIn(g[i][j], {'\n'}) {
        assert NoneIn(g[i][j], {'\t', '\n'});
      }
    }
    forall i | 0 <= i < |g| ensures NoneIn(lines[i], {'\n'}) {
      JoinNoneIn(g[i], '\t', {'\n'});
    }
  }

  lemma ParseTabsLines(g: Grid, text: string, lines: seq<string>)
    requires forall i :: 0 <= i < |g| ==> |g[i]| >= 1 && FreeOf(g[i], {'\t'})
    requires lines == RenderLines(g) && Split(Trim(text), {'\n'}) == lines
    ensures ParseTextTabs(text) == g
  {
    var parsed := ParseTextTabs(text);
    assert parsed == seq(|lines|, i requires 0 <= i < |lines| => Split(lines[i], {'\t'}));
    forall i | 0 <= i < |g| ensures parsed[i] == g[i] {
      SplitJoin(g[i], '\t', {'\t'});
    }
  }

  /** The example `"A1\t10\nB2\t5"` parses to the same grid under the tab-only parser. */
  lemma PastedExampleTabs()
    ensures ParseTextTabs("A1\t10\nB2\t5") == [["A1", "10"], ["B2", "5"]]
  {
    var g: Grid := [["A1", "10"], ["B2", "5"]];
    ExampleRendering();
    TrimOfTrimmed("A1\t10\nB2\t5");
    ParseTabsRenderRoundTrip(g);
  }

  /**
   * What the tab-only parser reads from a Windows rendering of a grid: the
   * last cell of every row but the last ends in the carriage return.
   */
  function KeepCarriageReturns(g: Grid): (k: Grid)
    ensures |k| == |g|
  {
    seq(|g|, i requires 0 <= i < |g| =>
      if i < |g| - 1 && |g[i]| >= 1 then g[i][..|g[i]| - 1] + [g[i][|g[i]| - 1] + "\r"] else g[i])
  }

  /** Rendering the carried grid with line feeds is rendering the grid with Windows line ends. */
  lemma RenderKeepCarriageReturns(g: Grid)
    requires forall i :: 0 <= i < |g| ==> |g[i]| >= 1
    ensures RenderGrid(KeepCarriageReturns(g)) == RenderGridCrLf(g)
  {
    var k := KeepCarriageReturns(g);
    assert RenderLines(k) == WithCarriageReturns(RenderLines(g)) by {
      forall i | 0 <= i < |g| ensures RenderLines(k)[i] == WithCarriageReturns(RenderLines(g))[i] {
        if i < |g| - 1 {
          JoinAppendLast(g[i], '\t', "\r");
        }
      }
    }
  }

  /**
   * Under the src/App.default.tsx parser Windows line ends are not line
   * separators: every clean grid of two or more rows comes back with a
   * carriage return glued to the last cell of each row but the last, so it
   * differs from the grid the src/App.tsx parser gives back.
   */
  lemma ParseTabsCrLf(g: Grid)
    requires CleanGrid(g) && |g| >= 1
    ensures ParseTextTabs(RenderGridCrLf(g)) == KeepCarriageReturns(g)
    ensures |g| >= 2 ==> ParseTextTabs(RenderGridCrLf(g)) != ParseText(RenderGridCrLf(g))
  {
    var k := KeepCarriageReturns(g);
    var text := RenderGridCrLf(g);
    assert ParseTextTabs(text) == k by {
      RenderKeepCarriageReturns(g);
      CrLfGridTrimmed(g);
      CarriedRowsFree(g);
      ParseTabsRenderRoundTrip(k);
    }
    if |g| >= 2 {
      assert ParseText(text) == g by {
        ParseRenderCrLfRoundTrip(g);
      }
      CarriedRowDiffers(g);
    }
  }

  /** Every carried row of a clean grid has a cell and holds no tab or line feed. */
  lemma CarriedRowsFree(g: Grid)
    requires CleanGrid(g)
    ensures forall i :: 0 <= i < |KeepCarriageReturns(g)| ==>
              |KeepCarriageReturns(g)[i]| >= 1 && FreeOf(KeepCarriageReturns(g)[i], {'\t', '\n'})
  {
    forall i | 0 <= i < |g| ensures |KeepCarriageReturns(g)[i]| >= 1 && FreeOf(KeepCarriageReturns(g)[i], {'\t', '\n'}) {
      CarriedRowFree(g, i);
    }
  }

  /** With two rows or more, the first carried row is not the first row. */
  lemma CarriedRowDiffers(g: Grid)
    requires CleanGrid(g) && |g| >= 2
    ensures KeepCarriageReturns(g)[0] != g[0]
  {
    var row := g[0];
    var k := KeepCarriageReturns(g);
    assert k[0][|row| - 1] == row[|row| - 1] + "\r";
    assert |k[0][|row| - 1]| != |row[|row| - 1]|;
  }

  /** A carried row of a clean grid has a cell and holds no tab or line feed. */
  lemma CarriedRowFree(g: Grid, i: nat)
    requires CleanGrid(g) && i < |g|
    ensures |KeepCarriageReturns(g)[i]| >= 1 && FreeOf(KeepCarriageReturns(g)[i], {'\t', '\n'})
  {
    var row := KeepCarriageReturns(g)[i];
    forall j | 0 <= j < |row| ensures NoneIn(row[j], {'\t', '\n'}) {
      assert CleanCell(g[i][j]);
      assert NoneIn(g[i][j], {'\t', ';', '\n', '\r'});
      if i < |g| - 1 && j == |g[i]| - 1 {
        assert row[j] == g[i][j] + "\r";
      } else {
        assert row[j] == g[i][j];
      }
    }
  }
}
