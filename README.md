# GeoPAN formatter: a Dafny model of its record handling

`GeoPAN_formatter.py` reads a coordinates file (`point_id x y z [notes]`) and a
from-to file (`from_id to_id [anything]`). For every from-to pair it computes the
propagated standard deviation of the horizontal distance. It then writes one
fixed-width line per pair for the GeoPAN adjustment program.

This project models the sequential logic around that computation:

- `Text` (text.dfy): `line.strip()`, the record split
  `re.split(';+|,+|\t+| +', ...)` and the `ljust(n)[:n]` padding.
  - Split is defined recursively. It is proved to be the unique cut of a line into
    delimiter-free fields separated by maximal runs of one delimiter kind.
  - From that come the two facts the code relies on. Fields never contain a
    delimiter. Rejoining the fields with their runs gives back the stripped line.
- `Tables` (tables.dfy): the `Coords` dictionary loop (lines 120-124) and the
  `FromTo` list loop (lines 128-132).
  - Each loop is a method with a `while` loop, proved equal to a left fold
    (`CoordTable`, `PairList`).
  - Lemmas about the folds give the properties: which keys end up in the
    dictionary, that the last line wins, that fields after the fourth are
    ignored, and that the first bad line stops the run.
- `Driver` (driver.dfy): the batch loop (lines 141-153). Each result row carries
  the pair's identifiers and `Sigma_horizontal_distance` of the two looked-up
  coordinate triples. The first unknown identifier raises a KeyError.
- `Report` (report.dfy): the output line of line 167, the output loop, and the
  whole run.
  - `Run` chains the four loops and is proved equal to `Pipeline`.
  - Lemmas about `Pipeline` say when a report is written, that an unknown point
    leaves no report, and what each report line holds, column by column.

Python exceptions are modelled as `Err` values of `Tables.Failure`:

- `MissingField` is an IndexError on `words[k]`.
- `NotANumber` is a ValueError from `float`.
- `UnknownPoint` is a KeyError on `Coords[id]`.

The floating-point parts enter as parameters:

- `parse: string -> Option<C>` stands for `float` (`None` is a ValueError).
- `sigma: (Coord<C>, Coord<C>) -> V` stands for `Sigma_horizontal_distance`
  with the script's precision settings.
- `render: V -> string` stands for `str` on the sigma value.

Notes on the script's behaviour, which the model follows:

- The record tag written at line 167 is the ten characters `" 1  0 0   "`
  (columns 0-9). The from-id starts at column 10.
- A line that mixes delimiter kinds is not rejected, although the comments at
  lines 121-122 and 129-130 say such lines are not handled. `re.split` (line
  123) leaves an empty field between two adjacent runs of different kinds, and
  the model does the same.
- Lookup failures are Python KeyErrors (lines 143-144). They are reported for
  the first pair that names an unknown point, with the from point looked up
  first.
- No sort is applied to the pairs (line 139 is commented out).

## Model

| member | source | states |
|---|---|---|
| Text.Strip | GeoPAN_formatter.py:123 | `strip()` leaves no whitespace at either end and never lengthens the line |
| Text.StripExact | GeoPAN_formatter.py:123 | stripping `a + m + b` with `a`, `b` all whitespace and `m` trimmed gives exactly `m` |
| Text.TrimStartExact | GeoPAN_formatter.py:123 | the leading whitespace in front of a text that does not start with whitespace is exactly what is removed |
| Text.TrimEndExact | GeoPAN_formatter.py:123 | the trailing whitespace after a text that does not end with whitespace is exactly what is removed |
| Text.StripTrimmed | GeoPAN_formatter.py:123 | a text with no whitespace at either end is unchanged by `strip()` |
| Text.StripIdempotent | GeoPAN_formatter.py:123 | stripping twice is stripping once |
| Text.Split | GeoPAN_formatter.py:123 | `re.split` always returns at least one field, so `words[0]` never fails |
| Text.SplitDecomposes | GeoPAN_formatter.py:121-123 | fields are delimiter-free, each cut is one delimiter repeated, an empty field lies only between runs of different delimiters, there is one more field than runs, and rejoining fields and runs reproduces the stripped line |
| Text.SplitUnique | GeoPAN_formatter.py:121-123 | any such decomposition of a line is the one `re.split` produces |
| Text.SplitFieldsDelimiterFree | GeoPAN_formatter.py:123 | no field contains `;`, `,`, tab or space |
| Text.SplitRepeatedDelimiter | GeoPAN_formatter.py:121-123 | a run of one repeated delimiter (`a;;;b`) cuts once, into two fields |
| Text.SplitMixedDelimiters | GeoPAN_formatter.py:121-123 | two adjacent runs of different delimiters (`a, b`) leave an empty field between them |
| Text.SplitExamples | GeoPAN_formatter.py:121-123 | `a;;;b` splits into `a`, `b` and `a, b` into `a`, empty, `b` |
| Text.Fit | GeoPAN_formatter.py:167 | `ljust(n)[:n]` is exactly `n` characters: the text where it exists, spaces after it |
| Text.FitReadBack | GeoPAN_formatter.py:167 | a space-free text is recovered from its padded column by trimming spaces, cut to the width when longer |
| Tables.Words | GeoPAN_formatter.py:123 | every line yields at least one field |
| Tables.CoordField | GeoPAN_formatter.py:124 | `float(words[k])` succeeds iff field `k` exists and parses; otherwise an IndexError or a ValueError for that line and field |
| Tables.CoordTable | GeoPAN_formatter.py:120-124 | the dictionary after reading the lines; a failure is an IndexError or a ValueError at one of the lines read |
| Tables.CoordEntry | GeoPAN_formatter.py:124 | a coordinates line yields `(words[0], (x, y, z))` iff it has four fields whose last three parse |
| Tables.CoordEntryFails | GeoPAN_formatter.py:124 | a failing coordinates line reports, at that line, the first of fields 1-3 that is missing (IndexError) or not a number (ValueError); the fields before it are numbers |
| Tables.CoordEntryIgnoresTrailing | GeoPAN_formatter.py:121-124 | fields after the fourth do not affect the entry |
| Tables.BuildCoordTable | GeoPAN_formatter.py:120-124 | the loop builds exactly the fold `CoordTable` over the lines' fields |
| Tables.CoordTableStep | GeoPAN_formatter.py:124 | one more line stores its entry in the dictionary read so far, or fails with that line's error |
| Tables.CoordTableStops | GeoPAN_formatter.py:120-124 | once a line fails, the lines after it do not change the outcome |
| Tables.CoordTableFails | GeoPAN_formatter.py:120-124 | the dictionary is built iff every line is a good coordinates line; otherwise the error is that of the first bad line |
| Tables.CoordTableKeys | GeoPAN_formatter.py:120-124 | the dictionary's keys are exactly the first fields of the lines |
| Tables.CoordTableLastWins | GeoPAN_formatter.py:124 | a repeated identifier holds the coordinates of the last line carrying it |
| Tables.PairEntry | GeoPAN_formatter.py:132 | a from-to line yields the pair of its first two fields iff it has at least two fields, and otherwise an IndexError on field 1 of that line |
| Tables.PairList | GeoPAN_formatter.py:128-132 | the list after reading the lines holds one pair per line; a failure is an IndexError on the from-to file at one of the lines read |
| Tables.BuildPairList | GeoPAN_formatter.py:128-132 | the loop builds exactly the fold `PairList` over the lines' fields |
| Tables.PairListStep | GeoPAN_formatter.py:131-132 | one more line appends its first two fields as a pair, or fails with an IndexError at that line if it has fewer than two |
| Tables.PairListStops | GeoPAN_formatter.py:128-132 | once a line fails, the lines after it do not change the outcome |
| Tables.PairListContents | GeoPAN_formatter.py:128-132 | one pair per line in file order, holding the line's first two fields; a line with fewer than two fields is an IndexError, and the first such line stops the run |
| Driver.Lookup | GeoPAN_formatter.py:143-144 | `Coords[id]` succeeds iff the identifier is a key, giving its coordinates, and otherwise is a KeyError naming the identifier and the pair |
| Driver.SigmaRow | GeoPAN_formatter.py:143-153 | one pair yields `(from, to, sigma)` iff both points are known; otherwise a KeyError names the from point if it is unknown, else the to point |
| Driver.SigmaRows | GeoPAN_formatter.py:141-153 | the results after processing the pairs have one row per pair; a failure is a KeyError at one of the pairs processed |
| Driver.ComputeSigmas | GeoPAN_formatter.py:141-153 | the loop builds exactly the fold `SigmaRows` over the pairs |
| Driver.SigmaRowsStop | GeoPAN_formatter.py:141-153 | once a pair fails, the pairs after it do not change the outcome |
| Driver.SigmaRowsContents | GeoPAN_formatter.py:141-153 | results match the pairs one for one and in order, each with the pair's identifiers and `sigma` of the looked-up coordinates; otherwise a KeyError names the first pair with an unknown point, and the from point if both are unknown |
| Report.Description | GeoPAN_formatter.py:167-168 | the closing text starts with the project name, ends with `ppm` and a newline, and has 54 characters besides the four settings |
| Report.FormatLine | GeoPAN_formatter.py:167-168 | every report line is 92 characters plus the description, starts with the ten-character tag and ends with the description |
| Report.FormatLineColumns | GeoPAN_formatter.py:166-168 | a report line is the tag in columns 0-9, the from id in 10-17, two spaces, the to id in 20-27, fifteen spaces, the value text in 43-49, forty-two spaces, and from column 92 the description, which starts with the project name |
| Report.FormatLineReadBack | GeoPAN_formatter.py:167 | reading columns 10-17, 20-27 and 43-49 back and trimming spaces gives each space-free text cut to its width |
| Report.ReportLines | GeoPAN_formatter.py:165-169 | the lines written have one line per result, all of the same fixed width |
| Report.Pipeline | GeoPAN_formatter.py:106-169 | a successful run writes one line per from-to line, all of one fixed width; a failed run is an IndexError or ValueError at a coordinates line, an IndexError at a from-to line, or a KeyError at a pair |
| Report.WriteReport | GeoPAN_formatter.py:165-169 | one line per result, in result order, each the formatted line of that result |
| Report.Run | GeoPAN_formatter.py:106-169 | the script's run computes exactly `Pipeline`: coordinates, then pairs, then the batch, then the report, stopping at the first error with no report |
| Report.PipelineSucceeds | GeoPAN_formatter.py:120-153 | a report is written iff every coordinates line is good and every from-to line has two fields naming identifiers of the coordinates file |
| Report.PipelineUnknownPoint | GeoPAN_formatter.py:141-165 | if a pair names an unknown point, the run ends in a KeyError at or before that pair, naming an identifier of that pair that is absent, and writes no lines |
| Report.PipelineReport | GeoPAN_formatter.py:141-168 | a successful run writes one line per from-to line, in order, holding the line's two identifiers and the rendered sigma of their stored coordinates |
| Report.PipelineIdentifiersReadBack | GeoPAN_formatter.py:123-167 | identifiers come out of the split without spaces, so columns 10-17 and 20-27 of each report line read back as the pair's identifiers cut to eight characters |

## Left out

- `horizontal_distance`, `slope_distance`, `delta_height`, `zenith_angle` and `Sigma_horizontal_distance` (lines 56-103) are floating-point code built on `sqrt`, `asin` and `cos`. The sigma is the parameter `sigma`, so the model says nothing about its value, and in the model `sigma` never fails. The script's computation can raise. `pow` raises OverflowError when a coordinate difference exceeds about 1.3e154 (lines 61 and 70). `hd/sd` raises ZeroDivisionError when the horizontal offsets are 0 and the squared height difference underflows to 0.0 while the heights differ (lines 82 and 86).
- Report.PipelineSucceeds: the direction "a report is written" holds only for a `sigma` that never raises, because the model's `sigma` cannot fail (see the line above).
- The mgon-to-radian conversion (line 117) and the settings constants (lines 34-50) are folded into `sigma`. The description's rendered numbers are the strings of `Report.Settings`.
- `float` (line 124) is the parameter `parse`. Which texts Python accepts as floats is not modelled.
- `str` on the sigma value (line 167) is the parameter `render`. Python writes values below 1e-4 in exponent notation (`5.9e-05`). `[:7]` can then cut off the exponent. The model cannot show this because rendering is opaque.
- File opening, reading, writing and closing (lines 107, 110, 126, 136, 165-169) are not modelled. A file is the sequence of its lines, and the report is the returned sequence of lines. The errors of opening files are left out, including the from-to file being opened before the coordinates are read (line 110).
- The commented-out options are not modelled: the reversed pair at line 134 and the sort at line 139.
- Python exceptions carry messages. The model's `Failure` values carry only the line, the field or the pair index, and the identifier.
- Python strings are sequences of code points. Dafny `char` excludes lone surrogates, which do not occur in text read from a file.
