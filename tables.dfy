/** The two input tables the formatter builds line by line: the coordinate
    dictionary `Coords` and the from-to list `FromTo`. */
module Tables {
  import opened Text

  datatype Option<T> = None | Some(value: T)

  /** Which input file a line came from. */
  datatype Input = CoordsFile | PairsFile

  /** Why a run stops. Each corresponds to a Python exception the script lets escape. */
  datatype Failure =
    | MissingField(input: Input, line: nat, field: nat)  // IndexError on words[field]
    | NotANumber(line: nat, field: nat)                   // ValueError from float(words[field])
    | UnknownPoint(pair: nat, id: string)                 // KeyError on Coords[id]

  datatype Result<T> = Ok(value: T) | Err(error: Failure)

  /** A point's coordinates; the number type is whatever the float parser yields. */
  datatype Coord<C> = Coord(x: C, y: C, z: C)

  /** An ordered from-to reference to two point identifiers. */
  datatype Pair = Pair(from: string, to: string)

  /** The fields of one input line: `re.split(';+|,+|\t+| +', line.strip())`. */
  function Words(line: string): (words: seq<string>)
    ensures |words| >= 1
  {
    Split(Strip(line))
  }

  /** The fields of every line of a file, in order. */
  function WordsOf(lines: seq<string>): seq<seq<string>> {
    seq(|lines|, i requires 0 <= i < |lines| => Words(lines[i]))
  }

  /** Coordinates lines fail with an IndexError or a ValueError. */
  predicate LineError(e: Failure) {
    e.MissingField? || e.NotANumber?
  }

  /** `float(words[k])`, at line `line` of the coordinates file. */
  function CoordField<C>(words: seq<string>, k: nat, line: nat, parse: string -> Option<C>): (r: Result<C>)
    ensures r.Ok? <==> k < |words| && parse(words[k]).Some?
    ensures r.Ok? ==> r.value == parse(words[k]).value
    ensures r.Err? ==> r.error == (if k < |words| then NotANumber(line, k) else MissingField(CoordsFile, line, k))
  {
    if k >= |words| then Err(MissingField(CoordsFile, line, k))
    else match parse(words[k])
      case None => Err(NotANumber(line, k))
      case Some(v) => Ok(v)
  }

  /** Good for a coordinates line: fields 1 to 3 are present and are numbers. */
  predicate CoordLineOk<C>(words: seq<string>, parse: string -> Option<C>) {
    |words| >= 4 && parse(words[1]).Some? && parse(words[2]).Some? && parse(words[3]).Some?
  }

  /** The entry one coordinates line contributes: `words[0]` and the three
      coordinates, evaluated left to right as Python does. */
  function CoordEntry<C>(words: seq<string>, line: nat, parse: string -> Option<C>): (r: Result<(string, Coord<C>)>)
    ensures r.Ok? <==> CoordLineOk(words, parse)
    ensures r.Ok? ==> r.value == (words[0], Coord(parse(words[1]).value, parse(words[2]).value, parse(words[3]).value))
  {
    match CoordField(words, 1, line, parse)
    case Err(e) => Err(e)
    case Ok(x) =>
      match CoordField(words, 2, line, parse)
      case Err(e) => Err(e)
      case Ok(y) =>
        match CoordField(words, 3, line, parse)
        case Err(e) => Err(e)
        case Ok(z) => Ok((words[0], Coord(x, y, z)))
  }

  /** A failing coordinates line reports the first of fields 1 to 3 that is
      missing or not a number, at that line. */
  lemma CoordEntryFails<C>(words: seq<string>, line: nat, parse: string -> Option<C>)
    ensures var r := CoordEntry(words, line, parse);
      r.Err? ==>
        && LineError(r.error) && r.error.line == line && 1 <= r.error.field <= 3
        && (forall k :: 1 <= k < r.error.field ==> k < |words| && parse(words[k]).Some?)
        && CoordField(words, r.error.field, line, parse) == Err(r.error)
  {
  }

  /** Fields after the fourth are ignored. */
  lemma CoordEntryIgnoresTrailing<C>(words: seq<string>, notes: seq<string>, line: nat, parse: string -> Option<C>)
    requires |words| >= 4
    ensures CoordEntry(words + notes, line, parse) == CoordEntry(words, line, parse)
  {
    var w := words + notes;
    assert w[0] == words[0] && w[1] == words[1] && w[2] == words[2] && w[3] == words[3];
  }

  /** `Coords` after the loop of lines 120-124 has read lines whose fields are
      `rows`: every line stores its entry in order, and the first failing line
      stops the run. */
  function CoordTable<C>(rows: seq<seq<string>>, parse: string -> Option<C>): (r: Result<map<string, Coord<C>>>)
    ensures r.Err? ==> LineError(r.error) && r.error.line < |rows|
    decreases |rows|
  {
    if rows == [] then Ok(map[])
    else
      var n := |rows| - 1;
      match CoordTable(rows[..n], parse)
      case Err(e) => Err(e)
      case Ok(m) =>
        match CoordEntry(rows[n], n, parse)
        case Err(e) => Err(e)
        case Ok(entry) => Ok(m[entry.0 := entry.1])
  }

  /** The loop of lines 120-124. */
  method BuildCoordTable<C>(lines: seq<string>, parse: string -> Option<C>) returns (r: Result<map<string, Coord<C>>>)
    ensures r == CoordTable(WordsOf(lines), parse)
  {
    ghost var rows := WordsOf(lines);
    var coords: map<string, Coord<C>> := map[];
    var i := 0;
    while i < |lines|
      invariant 0 <= i <= |lines|
      invariant CoordTable(rows[..i], parse) == Ok(coords)
    {
      var words := Words(lines[i]);
      assert words == rows[i];
      CoordTableStep(rows, parse, i);
      var entry := CoordEntry(words, i, parse);
      if entry.Err? {
        r := Err(entry.error);
        CoordTableStops(rows, parse, i + 1);
        return;
      }
      coords := coords[entry.value.0 := entry.value.1];
      i := i + 1;
    }
    assert rows[..i] == rows;
    r := Ok(coords);
  }

  /** One more line read by the loop. */
  lemma CoordTableStep<C>(rows: seq<seq<string>>, parse: string -> Option<C>, i: nat)
    requires i < |rows| && CoordTable(rows[..i], parse).Ok?
    ensures var entry := CoordEntry(rows[i], i, parse);
      CoordTable(rows[..i + 1], parse) ==
        if entry.Err? then Err(entry.error)
        else Ok(CoordTable(rows[..i], parse).value[entry.value.0 := entry.value.1])
  {
    assert rows[..i + 1][..i] == rows[..i];
  }

  /** Once a prefix fails, the whole table fails with the same error. */
  lemma {:induction false} CoordTableStops<C>(rows: seq<seq<string>>, parse: string -> Option<C>, i: nat)
    requires i <= |rows| && CoordTable(rows[..i], parse).Err?
    ensures CoordTable(rows, parse) == CoordTable(rows[..i], parse)
    decreases |rows| - i
  {
    if i < |rows| {
      assert rows[..i + 1][..i] == rows[..i];
      CoordTableStops(rows, parse, i + 1);
    } else {
      assert rows[..i] == rows;
    }
  }

  /** The table is built iff every line is a good coordinates line; otherwise the
      error is that of the first bad line. */
  lemma {:induction false} CoordTableFails<C>(rows: seq<seq<string>>, parse: string -> Option<C>)
    ensures CoordTable(rows, parse).Ok? <==> forall i :: 0 <= i < |rows| ==> CoordLineOk(rows[i], parse)
    ensures CoordTable(rows, parse).Err? ==>
      var e := CoordTable(rows, parse).error;
      && LineError(e) && e.line < |rows|
      && (forall i :: 0 <= i < e.line ==> CoordLineOk(rows[i], parse))
      && CoordEntry(rows[e.line], e.line, parse) == Err(e)
    decreases |rows|
  {
    if rows != [] {
      var n := |rows| - 1;
      CoordTableFails(rows[..n], parse);
      CoordEntryFails(rows[n], n, parse);
      assert forall i :: 0 <= i < n ==> rows[..n][i] == rows[i];
    }
  }

  /** The identifiers carried by the lines: their first fields. */
  function FirstFields(rows: seq<seq<string>>): set<string> {
    set i | 0 <= i < |rows| && rows[i] != [] :: rows[i][0]
  }

  /** After the loop the dictionary holds exactly the first fields of the lines. */
  lemma {:induction false} CoordTableKeys<C>(rows: seq<seq<string>>, parse: string -> Option<C>)
    requires CoordTable(rows, parse).Ok?
    ensures CoordTable(rows, parse).value.Keys == FirstFields(rows)
    decreases |rows|
  {
    if rows != [] {
      var n := |rows| - 1;
      var prefix := rows[..n];
      CoordTableKeys(prefix, parse);
      assert rows == prefix + [rows[n]];
      FirstFieldsAppend(prefix, rows[n]);
    }
  }

  lemma FirstFieldsAppend(rows: seq<seq<string>>, row: seq<string>)
    requires row != []
    ensures FirstFields(rows + [row]) == FirstFields(rows) + {row[0]}
  {
    var all := rows + [row];
    forall k | k in FirstFields(all) ensures k in FirstFields(rows) + {row[0]} {
      var i :| 0 <= i < |all| && all[i] != [] && k == all[i][0];
      if i < |rows| {
        assert all[i] == rows[i];
      }
    }
    forall k | k in FirstFields(rows) ensures k in FirstFields(all) {
      var i :| 0 <= i < |rows| && rows[i] != [] && k == rows[i][0];
      assert all[i] == rows[i];
    }
    assert all[|rows|] == row;
  }

  /** Line `i` carries the last occurrence of its identifier. */
  predicate LastWithKey(rows: seq<seq<string>>, i: nat)
    requires i < |rows| && rows[i] != []
  {
    forall j :: i < j < |rows| && rows[j] != [] ==> rows[j][0] != rows[i][0]
  }

  /** A repeated identifier keeps the coordinates of the last line carrying it. */
  lemma {:induction false} CoordTableLastWins<C>(rows: seq<seq<string>>, parse: string -> Option<C>, i: nat)
    requires CoordTable(rows, parse).Ok?
    requires i < |rows| && rows[i] != [] && LastWithKey(rows, i)
    ensures CoordEntry(rows[i], i, parse).Ok?
    ensures rows[i][0] in CoordTable(rows, parse).value
    ensures CoordTable(rows, parse).value[rows[i][0]] == CoordEntry(rows[i], i, parse).value.1
    decreases |rows|
  {
    var n := |rows| - 1;
    var prefix := rows[..n];
    if i < n {
      assert prefix[i] == rows[i];
      assert LastWithKey(prefix, i) by {
        forall j | i < j < n && prefix[j] != [] ensures prefix[j][0] != prefix[i][0] {
          assert prefix[j] == rows[j];
        }
      }
      CoordTableLastWins(prefix, parse, i);
      assert rows[n][0] != rows[i][0];
    }
  }

  // ---------------------------------------------------------------------
  // FromTo

  /** The pair one from-to line contributes: `[words[0], words[1]]`. */
  function PairEntry(words: seq<string>, line: nat): (r: Result<Pair>)
    ensures r.Ok? <==> |words| >= 2
    ensures r.Ok? ==> r.value.from == words[0] && r.value.to == words[1]
    ensures r.Err? ==> r.error == MissingField(PairsFile, line, 1)
  {
    if |words| < 2 then Err(MissingField(PairsFile, line, 1)) else Ok(Pair(words[0], words[1]))
  }

  /** `FromTo` after the loop of lines 128-132 has read lines whose fields are `rows`. */
  function PairList(rows: seq<seq<string>>): (r: Result<seq<Pair>>)
    ensures r.Ok? ==> |r.value| == |rows|
    ensures r.Err? ==> r.error.MissingField? && r.error.input == PairsFile && r.error.line < |rows|
    decreases |rows|
  {
    if rows == [] then Ok([])
    else
      var n := |rows| - 1;
      match PairList(rows[..n])
      case Err(e) => Err(e)
      case Ok(ps) =>
        match PairEntry(rows[n], n)
        case Err(e) => Err(e)
        case Ok(p) => Ok(ps + [p])
  }

  /** The loop of lines 128-132. */
  method BuildPairList(lines: seq<string>) returns (r: Result<seq<Pair>>)
    ensures r == PairList(WordsOf(lines))
  {
    ghost var rows := WordsOf(lines);
    var pairs: seq<Pair> := [];
    var i := 0;
    while i < |lines|
      invariant 0 <= i <= |lines|
      invariant PairList(rows[..i]) == Ok(pairs)
    {
      var words := Words(lines[i]);
      assert words == rows[i];
      PairListStep(rows, i);
      if |words| < 2 {
        r := Err(MissingField(PairsFile, i, 1));
        PairListStops(rows, i + 1);
        return;
      }
      pairs := pairs + [Pair(words[0], words[1])];
      i := i + 1;
    }
    assert rows[..i] == rows;
    r := Ok(pairs);
  }

  /** One more line read by the loop. */
  lemma PairListStep(rows: seq<seq<string>>, i: nat)
    requires i < |rows| && PairList(rows[..i]).Ok?
    ensures PairList(rows[..i + 1]) ==
      if |rows[i]| < 2 then Err(MissingField(PairsFile, i, 1))
      else Ok(PairList(rows[..i]).value + [Pair(rows[i][0], rows[i][1])])
  {
    assert rows[..i + 1][..i] == rows[..i];
  }

  lemma {:induction false} PairListStops(rows: seq<seq<string>>, i: nat)
    requires i <= |rows| && PairList(rows[..i]).Err?
    ensures PairList(rows) == PairList(rows[..i])
    decreases |rows| - i
  {
    if i < |rows| {
      assert rows[..i + 1][..i] == rows[..i];
      PairListStops(rows, i + 1);
    } else {
      assert rows[..i] == rows;
    }
  }

  /** The list has one pair per line, in file order, holding the line's first two
      fields; a line with fewer than two fields is an IndexError, and the first
      such line stops the run. */
  lemma {:induction false} PairListContents(rows: seq<seq<string>>)
    ensures PairList(rows).Ok? <==> forall i :: 0 <= i < |rows| ==> |rows[i]| >= 2
    ensures PairList(rows).Ok? ==>
      var ps := PairList(rows).value;
      && |ps| == |rows|
      && forall i :: 0 <= i < |rows| ==> |rows[i]| >= 2 && ps[i] == Pair(rows[i][0], rows[i][1])
    ensures PairList(rows).Err? ==>
      var e := PairList(rows).error;
      && e.MissingField? && e.input == PairsFile && e.field == 1
      && e.line < |rows| && |rows[e.line]| < 2
      && forall i :: 0 <= i < e.line ==> |rows[i]| >= 2
    decreases |rows|
  {
    if rows != [] {
      var n := |rows| - 1;
      PairListContents(rows[..n]);
      assert forall i :: 0 <= i < n ==> rows[..n][i] == rows[i];
    }
  }
}
