# Auto-DS core, modelled in Dafny

Auto-DS is a browser application. It reads a CSV file, summarises the dataset,
asks a language model for a data-science roadmap with a Python script, and
offers that script as a downloadable Jupyter notebook. This project models the
deterministic core of that pipeline:

- `notebook_generator.dfy` (module `NotebookGenerator`): `generateNotebookJSON`.
  The script is split into lines. A line whose trimmed text starts with
  `# Step` or `# مرحله` begins a new code cell, unless no line is buffered yet.
  Each cell's source is its lines, each followed by `"\n"`. The notebook
  metadata is fixed. The loop is the method `GenerateNotebook`, proved equal to
  the specification function `NotebookOf`. `NotebookOf` is built from a
  generic segmentation `Segments`. Lemmas prove that this segmentation is the
  only well-formed one, count the cells, give the shape of every cell and show
  that the script survives the round trip.
- `csv_parser.dfy` (module `CsvParser`): the `complete` callback of
  `parseCSV`. It rejects a parse that has errors and no rows. Otherwise it
  builds the dataset summary: row count, columns, a five-row preview, and the
  inferred column types. Types are inferred from at most the first 100 rows.
  Numeric wins over Datetime, and Datetime wins over Categorical/Text.
- `results_view.dfy` (module `ResultsView`): the notebook download of
  `ResultsView`. The notebook is generated from `result.pythonCode`. The file
  name is `AutoDS_` + the name with its first `.csv` removed + `.ipynb`.
- `js_string.dfy` (module `JsString`): the JavaScript string built-ins these
  use:
  - `split` on one character, with `join` as its inverse;
  - `trim`, with the ECMAScript white-space and line-terminator set;
  - `startsWith`;
  - `indexOf`;
  - `replace` with a string pattern, which replaces the first occurrence only.
- `wrappers.dfy` (module `Wrappers`): `Option` and `Result`.

The source calls JavaScript's `Number` and `Date.parse` on cell values. The
model takes these as parameters of the CSV functions:
- `numberIsNaN(s)` stands for `isNaN(Number(s))`;
- `dateParses(s)` stands for `!!Date.parse(s)`.

`Number(undefined)` is NaN in every engine (ToNumber, section 7.1.4 of
ECMA-262). So a key missing from a row always clears the numeric flag.
`String(undefined)` is `"undefined"`.

Edge cases the code decides, and the model with it:
- An empty script gives one cell with source `["\n"]`. `"".split('\n')` is
  `[""]`, so the buffer is never empty at the end.
- A CSV with zero rows gives an empty `columnTypes`. The `data.length > 0`
  guard skips inference entirely.
- Scripts are split on `'\n'` only. A `"\r"` stays at the end of its line, and
  `trim` still lets a `\r`-terminated marker line start a cell (`CrLfScript`).

Two comments in the source describe something the code does not do. The model
follows the code:
- `utils/notebookGenerator.ts:3` mentions splitting at double newlines. Only
  marker lines start a cell; blank lines stay inside their cell.
- `utils/csvParser.ts:37` says that a column with only empty samples defaults
  to text. The code classifies it as Numeric, because `isNumeric` starts true
  (`AllSkippedIsNumeric`).

## Model

| member | source | states |
|---|---|---|
| JsString.Split | utils/notebookGenerator.ts:6 | `split('\n')` yields at least one piece and no piece contains the separator |
| JsString.JoinSplit | utils/notebookGenerator.ts:6 | joining the pieces of `split` with the separator gives back the string |
| JsString.SplitJoin | utils/notebookGenerator.ts:6 | splitting a join of separator-free pieces gives back the pieces |
| JsString.SplitNoSeparator | utils/notebookGenerator.ts:6 | a string without the separator splits into itself alone |
| JsString.TrimStartSpec | utils/notebookGenerator.ts:11 | trimming the start removes exactly a prefix of white space and stops at a non-white character |
| JsString.TrimEndSpec | utils/notebookGenerator.ts:11 | trimming the end removes exactly a suffix of white space and stops at a non-white character |
| JsString.TrimRemovesOnlyTrimmable | utils/notebookGenerator.ts:11 | `trim()` returns a slice of the line with only white space outside it and no white space at either end |
| JsString.TrimStart | utils/notebookGenerator.ts:11 | the white-space-stripping front half of `trim()`; its contract is `TrimStartSpec` |
| JsString.TrimEnd | utils/notebookGenerator.ts:11 | the back half of `trim()`; its contract is `TrimEndSpec` |
| JsString.Trim | utils/notebookGenerator.ts:11 | `line.trim()`: `TrimEnd(TrimStart(line))`; its contract is `TrimRemovesOnlyTrimmable` |
| JsString.StartsWith | utils/notebookGenerator.ts:11 | `startsWith(prefix)`: the prefix is an initial segment of the string |
| JsString.IndexOf | components/ResultsView.tsx:23 | `indexOf` finds a position exactly when the pattern occurs, and that position is the first occurrence |
| JsString.ReplaceFirst | components/ResultsView.tsx:23 | `replace` with a string pattern leaves the string unchanged if the pattern is absent, and otherwise replaces exactly the first occurrence |
| NotebookGenerator.IsMarker | utils/notebookGenerator.ts:11 | the test: `line.trim()` starts with `# Step` or with `# مرحله`; its properties are the three lemmas below |
| NotebookGenerator.StepLineIsMarker | utils/notebookGenerator.ts:11 | a line of white space followed by `# Step` is a cell marker, however it is indented |
| NotebookGenerator.StageLineIsMarker | utils/notebookGenerator.ts:11 | a line of white space followed by `# مرحله` is a cell marker, however it is indented |
| NotebookGenerator.PlainLineIsNotMarker | utils/notebookGenerator.ts:11 | a line that starts with a non-white character other than `#` is never a marker |
| NotebookGenerator.WithNewlines | utils/notebookGenerator.ts:18 | `currentBuffer.map(l => l + "\n")`: same length, each line followed by a newline |
| NotebookGenerator.CellOf | utils/notebookGenerator.ts:13-19 | the cell pushed for a buffer: type `code`, null execution count, empty metadata and outputs, the buffer's lines with newlines as source (also lines 27-33) |
| NotebookGenerator.Cells | utils/notebookGenerator.ts:12-20 | one code cell per group, in order: type `code`, no execution count, empty metadata and outputs, and the group's lines as source |
| NotebookGenerator.Segments | utils/notebookGenerator.ts:5-34 | the grouping the buffer builds: a line opens a new group when it is a marker or nothing is buffered, and otherwise joins the last group; its properties are the three lemmas below |
| NotebookGenerator.SegmentsWellSegmented | utils/notebookGenerator.ts:9-24 | the groups concatenate to the lines; no group is empty; only the first line of a group can be a marker; every group after the first starts with a marker |
| NotebookGenerator.SegmentationUnique | utils/notebookGenerator.ts:9-24 | any grouping with those properties is the one the loop builds |
| NotebookGenerator.SegmentsNonEmpty | utils/notebookGenerator.ts:26-34 | there is at least one group exactly when there is at least one line |
| NotebookGenerator.SegmentCount | utils/notebookGenerator.ts:9-34 | the number of groups is one plus the number of marker lines after the first line, or zero for no lines |
| NotebookGenerator.NotebookOf | utils/notebookGenerator.ts:5-59 | the document: one `CellOf` per group of `Segments` of the `'\n'`-split script, with the constant metadata `FixedMetadata` (lines 38-56) and nbformat 4.4; what it promises is proved by `SourceRoundTrip`, `CellCountFormula`, the cell-shape lemmas and `ConstantParts` |
| NotebookGenerator.GenerateNotebook | utils/notebookGenerator.ts:1-59 | the loop with its buffer and the final flush builds exactly `NotebookOf(pythonCode)` |
| NotebookGenerator.PendingStep | utils/notebookGenerator.ts:11-23 | one loop step keeps the flushed cells plus the buffer equal to the segmentation of the lines read so far |
| NotebookGenerator.FlushPending | utils/notebookGenerator.ts:26-34 | after the last line the buffer is never empty, and flushing it yields the cells of every group |
| NotebookGenerator.CellsSnoc | utils/notebookGenerator.ts:26-34 | the final flush appends the last group's cell |
| NotebookGenerator.SourcesOfCells | utils/notebookGenerator.ts:18 | the cells' sources, concatenated, are all the lines, each followed by a newline |
| NotebookGenerator.WithNewlinesAppend | utils/notebookGenerator.ts:18 | adding newlines commutes with concatenating line lists |
| NotebookGenerator.ConcatWithNewlines | utils/notebookGenerator.ts:18 | concatenating newline-terminated lines is the lines joined by newlines plus one trailing newline |
| NotebookGenerator.SourceRoundTrip | utils/notebookGenerator.ts:6-34 | no line is lost, duplicated or reordered: the concatenated cell sources are the script plus one trailing newline |
| NotebookGenerator.CellCountFormula | utils/notebookGenerator.ts:9-34 | the notebook has one cell plus one per marker line after the first line |
| NotebookGenerator.NoMarkersOneCell | utils/notebookGenerator.ts:9-34 | a script with no marker after its first line becomes one cell holding every line |
| NotebookGenerator.NoLaterMarkersNoCount | utils/notebookGenerator.ts:11-12 | with no marker after the first line, no new cell is started |
| NotebookGenerator.StripNewline | utils/notebookGenerator.ts:18 | removing the newline `map(l => l + "\n")` added gives back the buffered line |
| NotebookGenerator.CellsNonEmpty | utils/notebookGenerator.ts:12-34 | no cell has an empty source |
| NotebookGenerator.LaterCellsOpenWithMarker | utils/notebookGenerator.ts:11-23 | every cell after the first begins with a marker line |
| NotebookGenerator.NoMarkerAfterFirstLine | utils/notebookGenerator.ts:18 | adding newlines to a group with no marker after its first line leaves none there |
| NotebookGenerator.MarkersOnlyOpenCells | utils/notebookGenerator.ts:11-23 | no cell has a marker line after its first line |
| NotebookGenerator.ConstantParts | utils/notebookGenerator.ts:13-59 | every cell is an empty-output code cell with no execution count. The metadata is exactly the fixed document of lines 38-56: kernel `Python 3`/`python`/`python3`; codemirror mode `ipython` 3; extension `.py`; mimetype `text/x-python`; name and exporter `python`; lexer `ipython3`; version `3.8.5`. The format is nbformat 4.4 (lines 57-58) |
| NotebookGenerator.TwoGroups | utils/notebookGenerator.ts:9-24 | a plain line, a marker and a plain line form two groups, the marker opening the second |
| NotebookGenerator.ThreeGroups | utils/notebookGenerator.ts:9-24 | two markers between plain lines form three groups |
| NotebookGenerator.EmptyScript | utils/notebookGenerator.ts:6-34 | the empty script becomes a single cell whose source is one newline |
| NotebookGenerator.ThreeStages | utils/notebookGenerator.ts:1-34 | `x`, `# Step 1`, `y`, `# Step 2`, `z` becomes cells `[x]`, `[# Step 1, y]`, `[# Step 2, z]` |
| NotebookGenerator.CrLfScript | utils/notebookGenerator.ts:6-11 | with CRLF line ends the `\r` stays in the source, and an indented `# Step` line still starts a cell |
| CsvParser.Lookup | utils/csvParser.ts:31 | `data[i][col]`: the row's value, or `undefined` for an absent key |
| CsvParser.Skipped | utils/csvParser.ts:32 | the values the scan skips: `null` and `''` |
| CsvParser.ToJsString | utils/csvParser.ts:34 | `String(val)`: `"null"` for null, `"undefined"` for an absent key, the string itself otherwise |
| CsvParser.NotANumber | utils/csvParser.ts:33 | `isNaN(Number(val))`: never for null (`Number(null)` is 0), always for `undefined`, and for a string as the number test says |
| CsvParser.NumericOk | utils/csvParser.ts:32-33 | a value leaves the numeric flag set when it is skipped or is a number |
| CsvParser.DateOk | utils/csvParser.ts:32-34 | a value leaves the date flag set when it is skipped or `Date.parse(String(val))` is truthy |
| CsvParser.AllNumeric | utils/csvParser.ts:27-35 | the numeric flag after the first `k` sampled rows: every one of them left it set |
| CsvParser.AllDates | utils/csvParser.ts:27-35 | the date flag after the first `k` sampled rows: every one of them left it set |
| CsvParser.SampleSize | utils/csvParser.ts:22 | `Math.min(data.length, 100)`: at most the row count and at most 100, and equal to one of them |
| CsvParser.Classify | utils/csvParser.ts:38-40 | the decision after the scan: Numeric, then Datetime, then Categorical/Text |
| CsvParser.InferredType | utils/csvParser.ts:27-40 | the type a column's scan gives; its contract is `TypePriority` and the lemmas after it |
| CsvParser.ColumnTypes | utils/csvParser.ts:21-42 | the `columnTypes` record; its contract is `ColumnTypesDomain`, `SampleWindowOnly` and `RowsBeyondSampleIgnored` |
| CsvParser.ColumnType.Label | utils/csvParser.ts:38-40 | the string stored for each type: `Numeric`, `Datetime`, `Categorical/Text` |
| CsvParser.LabelsDistinct | utils/csvParser.ts:38-40 | the three stored labels are distinct, so each label names exactly one type |
| CsvParser.InferColumnType | utils/csvParser.ts:27-40 | the flag loop over the sample returns Numeric if no sampled non-empty value is NaN, else Datetime if all parse as dates, else Categorical/Text |
| CsvParser.InferColumnTypes | utils/csvParser.ts:24-42 | the per-column loop stores each column's label, and builds exactly `ColumnTypes`: labels for exactly the listed columns when there is a row, none otherwise |
| CsvParser.Complete | utils/csvParser.ts:11-50 | errors with no rows reject with `Error parsing CSV: ` and the first message. Otherwise it returns the file name, the full row count, `fields` or `[]`, the first `min(n, 5)` rows as preview, and the inferred types |
| CsvParser.ColumnTypesDomain | utils/csvParser.ts:21-42 | no rows gives no types; otherwise the typed columns are exactly the listed columns; every stored value is `Numeric`, `Datetime` or `Categorical/Text` |
| CsvParser.SampleWindowOnly | utils/csvParser.ts:22-30 | two datasets with the same first `min(n, 100)` rows get the same column types |
| CsvParser.RowsBeyondSampleIgnored | utils/csvParser.ts:22-30 | changing a row at index 100 or later never changes the column types |
| CsvParser.TypePriority | utils/csvParser.ts:38-40 | Numeric if and only if every sampled value passes the number test; Datetime if and only if one fails it and all pass the date test; Categorical/Text otherwise |
| CsvParser.AllSkippedIsNumeric | utils/csvParser.ts:32-38 | a column whose sampled values are all null or empty is typed Numeric |
| CsvParser.MissingKeyNotNumeric | utils/csvParser.ts:31-34 | a sampled row lacking the column's key makes the column non-numeric, and Categorical/Text when `"undefined"` is not a date |
| CsvParser.FlagsMonotone | utils/csvParser.ts:30-35 | once a flag is cleared by a sampled row, later rows never set it again |
| CsvParser.ExampleColumns | utils/csvParser.ts:30-40 | numbers give Numeric, ISO dates give Datetime, colour words give Categorical/Text |
| ResultsView.Stem | components/ResultsView.tsx:23 | `filename.replace('.csv', '')`: the name unchanged when it holds no `.csv`, otherwise four characters shorter |
| ResultsView.DownloadName | components/ResultsView.tsx:23 | the name is `AutoDS_`, then the file name with its first `.csv` removed, then `.ipynb`; its length is the file name's plus 9 or plus 13 |
| ResultsView.FirstCsvDropped | components/ResultsView.tsx:23 | when the first dot of the name starts `.csv`, only that `.csv` is dropped and the rest, including a later `.csv`, is kept |
| ResultsView.NoCsvName | components/ResultsView.tsx:23 | `data.tsv` downloads as `AutoDS_data.tsv.ipynb` |
| ResultsView.DownloadNotebook | components/ResultsView.tsx:17-23 | the downloaded notebook is generated from the same `result.pythonCode` that the code tab shows and copies (lines 30, 156), under the name above |

## Left out

- Papa Parse itself is not part of this model: the tokenizer, header handling, `skipEmptyLines` and the worker thread. Its output, the rows, fields and errors, is the input of `CsvParser.Complete`.
- `Number` and `Date.parse` on strings are parameters. The model does not fix JavaScript's numeric-literal or date grammar. Only `Number(undefined)` being NaN is built in.
- Cell values other than strings and null are not modelled. Papa Parse without `dynamicTyping` produces none.
- Keys are plain map keys. Special object keys such as `__proto__` are not modelled.
- `JSON.stringify` of the notebook is not modelled. The model returns the notebook document as a value.
- Outputs are a `seq<string>` that is always empty. The source's `outputs: []` never holds anything.
- Strings are sequences of Unicode code points, not UTF-16 code units. For the ASCII and Persian marker texts compared here the two agree.
- The Blob, the object URL, the link element and the click in `downloadNotebook` are not modelled. Neither are the clipboard and its timer, and the React rendering.
- `parseCSV`'s promise and its `error` callback are not modelled: the model does not cover I/O failures of reading the file.
- `geminiService.ts`, `App.tsx`, `FileUpload.tsx` and `DatasetPreview.tsx` are not part of this model.
