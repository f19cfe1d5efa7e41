/** The fixed-width report line of lines 166-168, one per result, and the
    whole run from the two input files to the report. */
module Report {
  import opened Text
  import opened Tables
  import opened Driver

  /** The settings the description at the end of each line prints, as the
      f-string renders them: `Project_name`, `Number_of_sets_of_distances`
      and the two parts of `Sigma_sd`. */
  datatype Settings = Settings(project: string, sets: string, constantMm: string, ppm: string)

  /** The leading record tag, ten characters. */
  const Tag: string := " 1  0 0   "

  /** The closing text of every report line: the project name, then the fixed
      words around the settings, then a newline. */
  function Description(settings: Settings): (r: string)
    ensures |r| == |settings.project| + |settings.sets| + |settings.constantMm| + |settings.ppm| + 54
    ensures r[..|settings.project|] == settings.project
    ensures r[|r| - 4..] == "ppm\n"
  {
    settings.project + " Horizontal distance with " + settings.sets + " repetitions using "
      + settings.constantMm + "mm + " + settings.ppm + "ppm\n"
  }

  /** One report line, as the f-string of line 167 builds it. */
  function FormatLine(from: string, to: string, value: string, settings: Settings): (line: string)
    ensures |line| == 92 + |Description(settings)|
    ensures line[..10] == Tag && line[92..] == Description(settings)
  {
    Tag + Fit(from, 8) + Spaces(2) + Fit(to, 8) + Spaces(15) + Fit(value, 7) + Spaces(42) + Description(settings)
  }

  /** The columns of a report line: tag, from id in columns 10-17, to id in
      columns 20-27, value text in columns 43-49, the description (starting with
      the project name) from column 92. */
  lemma FormatLineColumns(from: string, to: string, value: string, settings: Settings)
    ensures var line := FormatLine(from, to, value, settings);
      && |line| == 92 + |Description(settings)|
      && line[..10] == Tag
      && line[10..18] == Fit(from, 8) && line[18..20] == Spaces(2)
      && line[20..28] == Fit(to, 8) && line[28..43] == Spaces(15)
      && line[43..50] == Fit(value, 7) && line[50..92] == Spaces(42)
      && line[92..] == Description(settings)
      && line[92..92 + |settings.project|] == settings.project
  {
  }

  /** What a fixed-column reader takes from `width` columns starting at `start`. */
  function Column(line: string, start: nat, width: nat): string
    requires start + width <= |line|
  {
    TrimSpaces(line[start..start + width])
  }

  /** `s[:n]`. */
  function Cut(s: string, n: nat): string {
    if |s| <= n then s else s[..n]
  }

  predicate SpaceFree(s: string) {
    forall k :: 0 <= k < |s| ==> s[k] != ' '
  }

  /** Reading a column back gives its text cut to the column's width, for a
      text without spaces. */
  lemma FormatLineReadBack(from: string, to: string, value: string, settings: Settings)
    ensures SpaceFree(from) ==> Column(FormatLine(from, to, value, settings), 10, 8) == Cut(from, 8)
    ensures SpaceFree(to) ==> Column(FormatLine(from, to, value, settings), 20, 8) == Cut(to, 8)
    ensures SpaceFree(value) ==> Column(FormatLine(from, to, value, settings), 43, 7) == Cut(value, 7)
  {
    FormatLineColumns(from, to, value, settings);
    if SpaceFree(from) {
      FitReadBack(from, 8);
    }
    if SpaceFree(to) {
      FitReadBack(to, 8);
    }
    if SpaceFree(value) {
      FitReadBack(value, 7);
    }
  }

  /** The lines the loop of lines 166-168 writes. */
  function ReportLines<V>(rows: seq<Row<V>>, render: V -> string, settings: Settings): (out: seq<string>)
    ensures |out| == |rows|
    ensures forall i :: 0 <= i < |out| ==> |out[i]| == 92 + |Description(settings)|
  {
    var out := seq(|rows|, i requires 0 <= i < |rows| => FormatLine(rows[i].from, rows[i].to, render(rows[i].sigma), settings));
    assert forall i :: 0 <= i < |out| ==> |out[i]| == 92 + |Description(settings)| by {
      forall i | 0 <= i < |out| ensures |out[i]| == 92 + |Description(settings)| {
        assert out[i] == FormatLine(rows[i].from, rows[i].to, render(rows[i].sigma), settings);
      }
    }
    out
  }

  /** The loop of lines 166-168; `render` stands for `str` on the sigma value. */
  method WriteReport<V>(rows: seq<Row<V>>, render: V -> string, settings: Settings) returns (out: seq<string>)
    ensures |out| == |rows|
    ensures forall i :: 0 <= i < |rows| ==> out[i] == FormatLine(rows[i].from, rows[i].to, render(rows[i].sigma), settings)
    ensures out == ReportLines(rows, render, settings)
  {
    out := [];
    var i := 0;
    while i < |rows|
      invariant 0 <= i <= |rows|
      invariant |out| == i
      invariant forall j :: 0 <= j < i ==> out[j] == FormatLine(rows[j].from, rows[j].to, render(rows[j].sigma), settings)
    {
      var row := rows[i];
      out := out + [FormatLine(row.from, row.to, render(row.sigma), settings)];
      i := i + 1;
    }
    assert forall i :: 0 <= i < |rows| ==> out[i] == ReportLines(rows, render, settings)[i];
  }

  // ---------------------------------------------------------------------
  // The whole run

  /** The run of the script: coordinates file, from-to file, results, report.
      The output file is opened only after the batch, so any failure leaves no
      report. */
  function Pipeline<C, V>(coordLines: seq<string>, pairLines: seq<string>, parse: string -> Option<C>,
                          sigma: (Coord<C>, Coord<C>) -> V, render: V -> string, settings: Settings): (r: Result<seq<string>>)
    ensures r.Ok? ==> |r.value| == |pairLines|
    ensures r.Ok? ==> forall i :: 0 <= i < |r.value| ==> |r.value[i]| == 92 + |Description(settings)|
    ensures r.Err? ==>
      || (LineError(r.error) && r.error.line < |coordLines|)
      || (r.error.MissingField? && r.error.input == PairsFile && r.error.line < |pairLines|)
      || (r.error.UnknownPoint? && r.error.pair < |pairLines|)
  {
    match CoordTable(WordsOf(coordLines), parse)
    case Err(e) => Err(e)
    case Ok(coords) =>
      match PairList(WordsOf(pairLines))
      case Err(e) => Err(e)
      case Ok(pairs) =>
        match SigmaRows(coords, pairs, sigma)
        case Err(e) => Err(e)
        case Ok(rows) => Ok(ReportLines(rows, render, settings))
  }

  /** Lines 106-169 without the file handling: `coordLines` and `pairLines` are
      the lines the two files hold, the result the lines written. */
  method Run<C, V>(coordLines: seq<string>, pairLines: seq<string>, parse: string -> Option<C>,
                   sigma: (Coord<C>, Coord<C>) -> V, render: V -> string, settings: Settings)
    returns (r: Result<seq<string>>)
    ensures r == Pipeline(coordLines, pairLines, parse, sigma, render, settings)
  {
    var coords := BuildCoordTable(coordLines, parse);
    if coords.Err? {
      return Err(coords.error);
    }
    var pairs := BuildPairList(pairLines);
    if pairs.Err? {
      return Err(pairs.error);
    }
    var rows := ComputeSigmas(coords.value, pairs.value, sigma);
    if rows.Err? {
      return Err(rows.error);
    }
    var out := WriteReport(rows.value, render, settings);
    return Ok(out);
  }

  /** The identifiers a from-to line names. */
  predicate NamesKnownPoints(coordRows: seq<seq<string>>, words: seq<string>) {
    |words| >= 2 && words[0] in FirstFields(coordRows) && words[1] in FirstFields(coordRows)
  }

  /** A run writes its report iff every coordinates line is good, every from-to
      line has two fields, and every pair names points of the coordinates file. */
  lemma PipelineSucceeds<C, V>(coordLines: seq<string>, pairLines: seq<string>, parse: string -> Option<C>,
                               sigma: (Coord<C>, Coord<C>) -> V, render: V -> string, settings: Settings)
    ensures var coordRows, pairRows := WordsOf(coordLines), WordsOf(pairLines);
      Pipeline(coordLines, pairLines, parse, sigma, render, settings).Ok? <==>
      && (forall i :: 0 <= i < |coordRows| ==> CoordLineOk(coordRows[i], parse))
      && (forall i :: 0 <= i < |pairRows| ==> NamesKnownPoints(coordRows, pairRows[i]))
  {
    var coordRows, pairRows := WordsOf(coordLines), WordsOf(pairLines);
    CoordTableFails(coordRows, parse);
    PairListContents(pairRows);
    var run := Pipeline(coordLines, pairLines, parse, sigma, render, settings);
    if CoordTable(coordRows, parse).Ok? {
      var coords := CoordTable(coordRows, parse).value;
      CoordTableKeys(coordRows, parse);
      if PairList(pairRows).Ok? {
        var pairs := PairList(pairRows).value;
        forall i | 0 <= i < |pairRows|
          ensures Known(coords, pairs[i]) <==> NamesKnownPoints(coordRows, pairRows[i])
        {
          assert pairs[i] == Pair(pairRows[i][0], pairRows[i][1]);
        }
        SigmaRowsContents(coords, pairs, sigma);
        assert run.Ok? <==> SigmaRows(coords, pairs, sigma).Ok?;
      } else {
        var e := PairList(pairRows).error;
        assert !NamesKnownPoints(coordRows, pairRows[e.line]);
        assert run.Err?;
      }
    } else {
      var e := CoordTable(coordRows, parse).error;
      assert !CoordLineOk(coordRows[e.line], parse);
      assert run.Err?;
    }
  }

  /** A pair naming an unknown point stops the run with a KeyError for the first
      such pair and no report at all. */
  lemma PipelineUnknownPoint<C, V>(coordLines: seq<string>, pairLines: seq<string>, parse: string -> Option<C>,
                                   sigma: (Coord<C>, Coord<C>) -> V, render: V -> string, settings: Settings, j: nat)
    requires forall i :: 0 <= i < |coordLines| ==> CoordLineOk(WordsOf(coordLines)[i], parse)
    requires forall i :: 0 <= i < |pairLines| ==> |WordsOf(pairLines)[i]| >= 2
    requires j < |pairLines| && !NamesKnownPoints(WordsOf(coordLines), WordsOf(pairLines)[j])
    ensures Pipeline(coordLines, pairLines, parse, sigma, render, settings).Err?
    ensures var e := Pipeline(coordLines, pairLines, parse, sigma, render, settings).error;
      var pairRows := WordsOf(pairLines);
      && e.UnknownPoint? && e.pair <= j
      && e.id !in FirstFields(WordsOf(coordLines))
      && (e.id == pairRows[e.pair][0] || e.id == pairRows[e.pair][1])
  {
    var coordRows, pairRows := WordsOf(coordLines), WordsOf(pairLines);
    CoordTableFails(coordRows, parse);
    PairListContents(pairRows);
    var coords := CoordTable(coordRows, parse).value;
    CoordTableKeys(coordRows, parse);
    var pairs := PairList(pairRows).value;
    SigmaRowsContents(coords, pairs, sigma);
    assert pairs[j] == Pair(pairRows[j][0], pairRows[j][1]);
    assert !Known(coords, pairs[j]);
    var e := SigmaRows(coords, pairs, sigma).error;
    assert Pipeline(coordLines, pairLines, parse, sigma, render, settings) == Err(e);
    assert pairs[e.pair] == Pair(pairRows[e.pair][0], pairRows[e.pair][1]);
  }

  /** The report has one line per from-to line, in order; each carries the
      line's two identifiers in their columns and the rendered sigma of the
      coordinates stored under them. */
  lemma PipelineReport<C, V>(coordLines: seq<string>, pairLines: seq<string>, parse: string -> Option<C>,
                             sigma: (Coord<C>, Coord<C>) -> V, render: V -> string, settings: Settings)
    requires Pipeline(coordLines, pairLines, parse, sigma, render, settings).Ok?
    ensures var out := Pipeline(coordLines, pairLines, parse, sigma, render, settings).value;
      var coords := CoordTable(WordsOf(coordLines), parse).value;
      var pairRows := WordsOf(pairLines);
      && |out| == |pairLines|
      && forall i :: 0 <= i < |pairLines| ==>
           var w := pairRows[i];
           && |w| >= 2 && w[0] in coords && w[1] in coords
           && out[i] == FormatLine(w[0], w[1], render(sigma(coords[w[0]], coords[w[1]])), settings)
  {
    var coordRows, pairRows := WordsOf(coordLines), WordsOf(pairLines);
    var coords := CoordTable(coordRows, parse).value;
    var pairs := PairList(pairRows).value;
    PairListContents(pairRows);
    SigmaRowsContents(coords, pairs, sigma);
    var rows := SigmaRows(coords, pairs, sigma).value;
    var out := ReportLines(rows, render, settings);
    assert Pipeline(coordLines, pairLines, parse, sigma, render, settings).value == out;
    forall i | 0 <= i < |pairLines|
      ensures var w := pairRows[i];
        && |w| >= 2 && w[0] in coords && w[1] in coords
        && out[i] == FormatLine(w[0], w[1], render(sigma(coords[w[0]], coords[w[1]])), settings)
    {
      assert pairs[i] == Pair(pairRows[i][0], pairRows[i][1]);
      assert rows[i] == Row(pairs[i].from, pairs[i].to, sigma(coords[pairs[i].from], coords[pairs[i].to]));
      assert out[i] == FormatLine(rows[i].from, rows[i].to, render(rows[i].sigma), settings);
    }
  }

  /** Identifiers come out of the split free of spaces, so a fixed-column reader
      of the report finds in columns 10-17 and 20-27 the pair's identifiers,
      cut to eight characters. */
  lemma PipelineIdentifiersReadBack<C, V>(coordLines: seq<string>, pairLines: seq<string>, parse: string -> Option<C>,
                                          sigma: (Coord<C>, Coord<C>) -> V, render: V -> string, settings: Settings, i: nat)
    ensures var run := Pipeline(coordLines, pairLines, parse, sigma, render, settings);
      run.Ok? && i < |pairLines| ==>
        var out, w := run.value, WordsOf(pairLines)[i];
        && |out| == |pairLines| && |w| >= 2 && |out[i]| >= 28
        && Column(out[i], 10, 8) == Cut(w[0], 8)
        && Column(out[i], 20, 8) == Cut(w[1], 8)
  {
    if !(Pipeline(coordLines, pairLines, parse, sigma, render, settings).Ok? && i < |pairLines|) {
      return;
    }
    PipelineReport(coordLines, pairLines, parse, sigma, render, settings);
    var w := WordsOf(pairLines)[i];
    SplitFieldsDelimiterFree(Strip(pairLines[i]));
    assert w == Split(Strip(pairLines[i]));
    assert SpaceFree(w[0]) && SpaceFree(w[1]);
    var coords := CoordTable(WordsOf(coordLines), parse).value;
    var value := render(sigma(coords[w[0]], coords[w[1]]));
    FormatLineColumns(w[0], w[1], value, settings);
    FormatLineReadBack(w[0], w[1], value, settings);
  }
}
