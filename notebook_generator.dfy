/**
 * The notebook cell segmenter of `utils/notebookGenerator.ts`: a script is
 * split into lines, the lines are grouped into code cells that each start at
 * a stage-marker comment, and the cells are wrapped in a fixed Jupyter
 * notebook (format 4.4) document. The JSON text of that document is not
 * modelled; the document value is.
 */
module NotebookGenerator {
  import opened Wrappers
  import opened JsString

  // ---------------------------------------------------------------------
  // The document
  // ---------------------------------------------------------------------

  /** One code cell; only `source` depends on the script. */
  datatype CodeCell = CodeCell(
    cellType: string,
    executionCount: Option<int>,   // JSON null when None
    metadata: map<string, string>, // always the empty object
    outputs: seq<string>,          // always the empty array
    source: seq<string>)

  datatype KernelSpec = KernelSpec(displayName: string, language: string, name: string)
  datatype CodeMirrorMode = CodeMirrorMode(name: string, version: int)
  datatype LanguageInfo = LanguageInfo(
    codemirrorMode: CodeMirrorMode,
    fileExtension: string,
    mimetype: string,
    name: string,
    nbconvertExporter: string,
    pygmentsLexer: string,
    version: string)
  datatype NotebookMetadata = NotebookMetadata(kernelspec: KernelSpec, languageInfo: LanguageInfo)

  datatype Notebook = Notebook(
    cells: seq<CodeCell>,
    metadata: NotebookMetadata,
    nbformat: int,
    nbformatMinor: int)

  const FixedMetadata: NotebookMetadata :=
    NotebookMetadata(
      KernelSpec("Python 3", "python", "python3"),
      LanguageInfo(CodeMirrorMode("ipython", 3), ".py", "text/x-python", "python",
                   "python", "ipython3", "3.8.5"))

  const NbFormat: int := 4
  const NbFormatMinor: int := 4

  // ---------------------------------------------------------------------
  // Stage markers
  // ---------------------------------------------------------------------

  const StepMarker: string := "# Step"
  /** "# مرحله" ("stage" in Persian). */
  const StageMarker: string := "# \U{0645}\U{0631}\U{062D}\U{0644}\U{0647}"

  /** A line opens a new cell when, once trimmed, it starts with a stage marker. */
  predicate IsMarker(line: string) {
    StartsWith(Trim(line), StepMarker) || StartsWith(Trim(line), StageMarker)
  }

  /** An indented `# Step` line is a marker: the test sees past the indentation and any trailing blanks. */
  lemma StepLineIsMarker(line: string, indent: nat)
    requires indent <= |line| && forall i | 0 <= i < indent :: IsTrimmable(line[i])
    requires StartsWith(line[indent..], StepMarker)
    ensures IsMarker(line)
  {
    var t := TrimStart(line);
    TrimStartSpec(line);
    assert line[indent] == '#';
    assert |line| - |t| == indent;
    TrimEndSpec(t);
    assert t[5] == 'p';
    assert |TrimEnd(t)| > 5;
    assert Trim(line)[..6] == t[..6];
  }

  /** The same for an indented `# مرحله` line. */
  lemma StageLineIsMarker(line: string, indent: nat)
    requires indent <= |line| && forall i | 0 <= i < indent :: IsTrimmable(line[i])
    requires StartsWith(line[indent..], StageMarker)
    ensures IsMarker(line)
  {
    var t := TrimStart(line);
    TrimStartSpec(line);
    assert line[indent] == '#';
    assert |line| - |t| == indent;
    TrimEndSpec(t);
    assert t[6] == '\U{0647}';
    assert |TrimEnd(t)| > 6;
    assert Trim(line)[..7] == t[..7];
  }

  /** A line whose first character is neither blank nor `#` is not a marker. */
  lemma PlainLineIsNotMarker(line: string)
    requires line != [] && !IsTrimmable(line[0]) && line[0] != '#'
    ensures !IsMarker(line)
  {
    TrimEndSpec(line);
    assert TrimStart(line) == line;
    assert Trim(line)[0] == line[0];
  }

  // ---------------------------------------------------------------------
  // The partition of the lines into cells
  // ---------------------------------------------------------------------

  /** All groups, concatenated in order. */
  function Flatten(groups: seq<seq<string>>): seq<string>
    decreases |groups|
  {
    if groups == [] then [] else Flatten(groups[..|groups| - 1]) + groups[|groups| - 1]
  }

  /**
   * The groups of lines the source's single pending buffer produces: a line
   * joins the last group unless it is a marker or there is no group yet, in
   * which case it opens a new one.
   */
  function Segments(lines: seq<string>, isMarker: string -> bool): seq<seq<string>>
    decreases |lines|
  {
    if lines == [] then []
    else
      var prev := Segments(lines[..|lines| - 1], isMarker);
      var line := lines[|lines| - 1];
      if prev == [] || isMarker(line) then prev + [[line]]
      else prev[..|prev| - 1] + [prev[|prev| - 1] + [line]]
  }

  /** A group holds no marker after its first line. */
  predicate NoLaterMarker(group: seq<string>, isMarker: string -> bool) {
    forall j | 1 <= j < |group| :: !isMarker(group[j])
  }

  /**
   * What a grouping of `lines` into cells must satisfy, stated without the
   * buffer: it loses and reorders no line, has no empty group, every group
   * after the first starts with a marker, and a marker is never inside a group.
   */
  ghost predicate WellSegmented(lines: seq<string>, groups: seq<seq<string>>, isMarker: string -> bool) {
    && Flatten(groups) == lines
    && (forall k | 0 <= k < |groups| :: groups[k] != [] && NoLaterMarker(groups[k], isMarker))
    && (forall k | 1 <= k < |groups| :: isMarker(groups[k][0]))
  }

  lemma FlattenSnoc(groups: seq<seq<string>>, group: seq<string>)
    ensures Flatten(groups + [group]) == Flatten(groups) + group
  {
    assert (groups + [group])[..|groups|] == groups;
  }

  /** One more line: either a new group or an extension of the last one. */
  lemma SegmentsSnoc(lines: seq<string>, line: string, isMarker: string -> bool)
    ensures Segments(lines + [line], isMarker) ==
      var prev := Segments(lines, isMarker);
      if prev == [] || isMarker(line) then prev + [[line]]
      else prev[..|prev| - 1] + [prev[|prev| - 1] + [line]]
  {
    assert (lines + [line])[..|lines|] == lines;
  }

  /** The buffer's grouping meets that description. */
  lemma {:induction false} SegmentsWellSegmented(lines: seq<string>, isMarker: string -> bool)
    ensures WellSegmented(lines, Segments(lines, isMarker), isMarker)
    decreases |lines|
  {
    if lines != [] {
      var init := lines[..|lines| - 1];
      var line := lines[|lines| - 1];
      assert init + [line] == lines;
      SegmentsWellSegmented(init, isMarker);
      SegmentsSnoc(init, line, isMarker);
      var prev := Segments(init, isMarker);
      if prev == [] || isMarker(line) {
        NewGroupKeepsShape(init, prev, line, isMarker);
      } else {
        ExtendedGroupKeepsShape(init, prev, line, isMarker);
      }
    }
  }

  lemma NewGroupKeepsShape(init: seq<string>, prev: seq<seq<string>>, line: string, isMarker: string -> bool)
    requires WellSegmented(init, prev, isMarker)
    requires prev == [] || isMarker(line)
    ensures WellSegmented(init + [line], prev + [[line]], isMarker)
  {
    var g := prev + [[line]];
    FlattenSnoc(prev, [line]);
    assert forall k | 0 <= k < |prev| :: g[k] == prev[k];
  }

  lemma ExtendedGroupKeepsShape(init: seq<string>, prev: seq<seq<string>>, line: string, isMarker: string -> bool)
    requires WellSegmented(init, prev, isMarker)
    requires prev != [] && !isMarker(line)
    ensures WellSegmented(init + [line], prev[..|prev| - 1] + [prev[|prev| - 1] + [line]], isMarker)
  {
    var n := |prev|;
    var last := prev[n - 1];
    var g := prev[..n - 1] + [last + [line]];
    assert prev == prev[..n - 1] + [last];
    FlattenSnoc(prev[..n - 1], last);
    FlattenSnoc(prev[..n - 1], last + [line]);
    assert forall k | 0 <= k < n - 1 :: g[k] == prev[k];
    assert NoLaterMarker(last + [line], isMarker) by {
      assert NoLaterMarker(last, isMarker);
      forall j | 1 <= j < |last| + 1 ensures !isMarker((last + [line])[j]) {
        if j < |last| { assert (last + [line])[j] == last[j]; }
      }
    }
    assert n > 1 ==> g[n - 1][0] == last[0];
  }

  /** And it is the only grouping that does: the description determines the cells. */
  lemma {:induction false} SegmentationUnique(lines: seq<string>, groups: seq<seq<string>>, isMarker: string -> bool)
    requires WellSegmented(lines, groups, isMarker)
    ensures groups == Segments(lines, isMarker)
    decreases |lines|
  {
    if groups != [] {
      var n := |groups|;
      var last := groups[n - 1];
      var before := groups[..n - 1];
      assert groups == before + [last];
      FlattenSnoc(before, last);
      var line := last[|last| - 1];
      var init := lines[..|lines| - 1];
      assert lines == init + [line];
      assert forall k | 0 <= k < n - 1 :: before[k] == groups[k];
      SegmentsSnoc(init, line, isMarker);
      if |last| == 1 {
        assert last == [line];
        assert Flatten(before) == init;
        SegmentationUnique(init, before, isMarker);
        if n > 1 {
          assert isMarker(line);
        }
      } else {
        var shorter := before + [last[..|last| - 1]];
        assert last == last[..|last| - 1] + [line];
        FlattenSnoc(before, last[..|last| - 1]);
        assert groups == before + [last[..|last| - 1] + [line]];
        ShorterWellSegmented(init, before, last[..|last| - 1], line, isMarker);
        SegmentationUnique(init, shorter, isMarker);
        assert !isMarker(line) by { assert NoLaterMarker(last, isMarker); }
        assert shorter[..n - 1] == before;
      }
    }
  }

  lemma ShorterWellSegmented(init: seq<string>, before: seq<seq<string>>, last: seq<string>, line: string, isMarker: string -> bool)
    requires last != []
    requires WellSegmented(init + [line], before + [last + [line]], isMarker)
    requires Flatten(before + [last]) == init
    ensures WellSegmented(init, before + [last], isMarker)
  {
    var groups := before + [last + [line]];
    var n := |groups|;
    assert forall k | 0 <= k < n - 1 :: (before + [last])[k] == groups[k];
    assert NoLaterMarker(last + [line], isMarker);
    assert NoLaterMarker(last, isMarker) by {
      forall j | 1 <= j < |last| ensures !isMarker(last[j]) {
        assert last[j] == (last + [line])[j];
      }
    }
    assert (before + [last])[n - 1][0] == groups[n - 1][0];
  }

  /** Some lines give some group. */
  lemma SegmentsNonEmpty(lines: seq<string>, isMarker: string -> bool)
    ensures |Segments(lines, isMarker)| >= 1 <==> lines != []
  {
  }

  /** Markers at positions 1 and later. */
  function CountMarkers(lines: seq<string>, isMarker: string -> bool): nat
    decreases |lines|
  {
    if |lines| <= 1 then 0
    else CountMarkers(lines[..|lines| - 1], isMarker) + (if isMarker(lines[|lines| - 1]) then 1 else 0)
  }

  /** One group for the first line, and one more for each later marker line. */
  lemma {:induction false} SegmentCount(lines: seq<string>, isMarker: string -> bool)
    ensures |Segments(lines, isMarker)| == if lines == [] then 0 else 1 + CountMarkers(lines, isMarker)
    decreases |lines|
  {
    if lines != [] {
      var init := lines[..|lines| - 1];
      SegmentCount(init, isMarker);
    }
  }

  // ---------------------------------------------------------------------
  // Cells
  // ---------------------------------------------------------------------

  /** Each line with a newline appended, as the cell `source` lists hold them. */
  function WithNewlines(lines: seq<string>): (r: seq<string>)
    ensures |r| == |lines| && forall i | 0 <= i < |lines| :: r[i] == lines[i] + "\n"
    decreases |lines|
  {
    if lines == [] then [] else [lines[0] + "\n"] + WithNewlines(lines[1..])
  }

  /** The cell a flushed buffer becomes. */
  function CellOf(buffer: seq<string>): CodeCell {
    CodeCell("code", None, map[], [], WithNewlines(buffer))
  }

  /** One cell per group, in order. */
  function Cells(groups: seq<seq<string>>): (cells: seq<CodeCell>)
    ensures |cells| == |groups| && forall k | 0 <= k < |groups| :: cells[k] == CellOf(groups[k])
    decreases |groups|
  {
    if groups == [] then [] else Cells(groups[..|groups| - 1]) + [CellOf(groups[|groups| - 1])]
  }

  /** All cells' `source` lists, concatenated in order. */
  function AllSources(cells: seq<CodeCell>): seq<string>
    decreases |cells|
  {
    if cells == [] then [] else AllSources(cells[..|cells| - 1]) + cells[|cells| - 1].source
  }

  /** Every string of a sequence, concatenated. */
  function Concat(ss: seq<string>): string
    decreases |ss|
  {
    if ss == [] then "" else ss[0] + Concat(ss[1..])
  }

  /** The notebook the source serialises for a script. */
  function NotebookOf(pythonCode: string): Notebook {
    Notebook(Cells(Segments(Split(pythonCode, '\n'), IsMarker)), FixedMetadata, NbFormat, NbFormatMinor)
  }

  /**
   * The cells flushed so far and the pending buffer, after the lines `done`:
   * every group but the last is a cell, and the last is still buffered.
   */
  ghost predicate Pending(done: seq<string>, cells: seq<CodeCell>, buffer: seq<string>) {
    if done == [] then cells == [] && buffer == []
    else
      var g := Segments(done, IsMarker);
      |g| >= 1 && cells == Cells(g[..|g| - 1]) && buffer == g[|g| - 1]
  }

  /** One pass of the loop body keeps `Pending`. */
  lemma PendingStep(done: seq<string>, line: string, cells: seq<CodeCell>, buffer: seq<string>)
    requires Pending(done, cells, buffer)
    ensures buffer != [] && IsMarker(line) ==> Pending(done + [line], cells + [CellOf(buffer)], [line])
    ensures !(buffer != [] && IsMarker(line)) ==> Pending(done + [line], cells, buffer + [line])
  {
    SegmentsSnoc(done, line, IsMarker);
    if done != [] {
      CellsSnoc(Segments(done, IsMarker));
    }
  }

  /** Generates the notebook document for a script, with the source's single pending buffer. */
  method GenerateNotebook(pythonCode: string) returns (nb: Notebook)
    ensures nb == NotebookOf(pythonCode)
  {
    var lines := Split(pythonCode, '\n');
    var cells: seq<CodeCell> := [];
    var buffer: seq<string> := [];
    for i := 0 to |lines|
      invariant Pending(lines[..i], cells, buffer)
    {
      var line := lines[i];
      PendingStep(lines[..i], line, cells, buffer);
      PrefixSnoc(lines, i);
      if IsMarker(line) {
        if |buffer| > 0 {
          cells := cells + [CellOf(buffer)];
          buffer := [];
        }
      }
      buffer := buffer + [line];
    }
    assert lines[..|lines|] == lines;
    FlushPending(lines, cells, buffer);
    if |buffer| > 0 {
      cells := cells + [CellOf(buffer)];
    }
    nb := Notebook(cells, FixedMetadata, NbFormat, NbFormatMinor);
  }

  /** The lines read after one more pass. */
  lemma PrefixSnoc(lines: seq<string>, i: nat)
    requires i < |lines|
    ensures lines[..i + 1] == lines[..i] + [lines[i]]
  {
  }

  /** After the last line the buffer holds the last group, and flushing it completes the cells. */
  lemma FlushPending(lines: seq<string>, cells: seq<CodeCell>, buffer: seq<string>)
    requires lines != [] && Pending(lines, cells, buffer)
    ensures buffer != [] && cells + [CellOf(buffer)] == Cells(Segments(lines, IsMarker))
  {
    SegmentsWellSegmented(lines, IsMarker);
    CellsSnoc(Segments(lines, IsMarker));
  }

  /** Closing the last group as a cell. */
  lemma CellsSnoc(g: seq<seq<string>>)
    requires |g| >= 1
    ensures Cells(g[..|g| - 1]) + [CellOf(g[|g| - 1])] == Cells(g)
  {
  }

  // ---------------------------------------------------------------------
  // What the document promises
  // ---------------------------------------------------------------------

  /** The cells' sources, in order, are the script's lines, each with a newline. */
  lemma {:induction false} SourcesOfCells(groups: seq<seq<string>>)
    ensures AllSources(Cells(groups)) == WithNewlines(Flatten(groups))
    decreases |groups|
  {
    if groups != [] {
      var n := |groups|;
      SourcesOfCells(groups[..n - 1]);
      assert Cells(groups)[..n - 1] == Cells(groups[..n - 1]);
      WithNewlinesAppend(Flatten(groups[..n - 1]), groups[n - 1]);
    }
  }

  lemma {:induction false} WithNewlinesAppend(a: seq<string>, b: seq<string>)
    ensures WithNewlines(a + b) == WithNewlines(a) + WithNewlines(b)
    decreases |a|
  {
    if a == [] {
      assert a + b == b;
    } else {
      assert (a + b)[1..] == a[1..] + b;
      WithNewlinesAppend(a[1..], b);
    }
  }

  /** Concatenating lines that each end in a newline restores the joined text plus one newline. */
  lemma {:induction false} ConcatWithNewlines(lines: seq<string>)
    requires lines != []
    ensures Concat(WithNewlines(lines)) == Join(lines, '\n') + "\n"
    decreases |lines|
  {
    if |lines| > 1 {
      ConcatWithNewlines(lines[1..]);
    }
  }

  /**
   * Round trip: the cells' sources, in order, are the script's lines each
   * suffixed with a newline, so their concatenation is the script plus one
   * trailing newline.
   */
  lemma SourceRoundTrip(pythonCode: string)
    ensures AllSources(NotebookOf(pythonCode).cells) == WithNewlines(Split(pythonCode, '\n'))
    ensures Concat(AllSources(NotebookOf(pythonCode).cells)) == pythonCode + "\n"
  {
    var lines := Split(pythonCode, '\n');
    SegmentsWellSegmented(lines, IsMarker);
    SourcesOfCells(Segments(lines, IsMarker));
    ConcatWithNewlines(lines);
    JoinSplit(pythonCode, '\n');
  }

  /** Every script gives at least one cell: one, plus one for each later marker line. */
  lemma CellCountFormula(pythonCode: string)
    ensures |NotebookOf(pythonCode).cells| == 1 + CountMarkers(Split(pythonCode, '\n'), IsMarker)
  {
    SegmentCount(Split(pythonCode, '\n'), IsMarker);
  }

  /** A script without marker lines after its first line is one cell holding every line. */
  lemma NoMarkersOneCell(pythonCode: string)
    requires forall i | 1 <= i < |Split(pythonCode, '\n')| :: !IsMarker(Split(pythonCode, '\n')[i])
    ensures |NotebookOf(pythonCode).cells| == 1
    ensures NotebookOf(pythonCode).cells[0].source == WithNewlines(Split(pythonCode, '\n'))
  {
    var lines := Split(pythonCode, '\n');
    NoLaterMarkersNoCount(lines);
    CellCountFormula(pythonCode);
    SourceRoundTrip(pythonCode);
    assert AllSources(NotebookOf(pythonCode).cells) == AllSources([]) + NotebookOf(pythonCode).cells[0].source;
  }

  lemma {:induction false} NoLaterMarkersNoCount(lines: seq<string>)
    requires forall i | 1 <= i < |lines| :: !IsMarker(lines[i])
    ensures CountMarkers(lines, IsMarker) == 0
    decreases |lines|
  {
    if |lines| > 1 {
      NoLaterMarkersNoCount(lines[..|lines| - 1]);
    }
  }

  /** Dropping the newline that `WithNewlines` added gives back the line. */
  lemma StripNewline(lines: seq<string>, j: nat)
    requires j < |lines|
    ensures |WithNewlines(lines)[j]| == |lines[j]| + 1
    ensures WithNewlines(lines)[j][..|lines[j]|] == lines[j]
  {
    assert WithNewlines(lines)[j] == lines[j] + "\n";
  }

  /** No cell has an empty source: a cell is flushed only when its buffer holds a line. */
  lemma CellsNonEmpty(pythonCode: string)
    ensures forall k | 0 <= k < |NotebookOf(pythonCode).cells| :: NotebookOf(pythonCode).cells[k].source != []
  {
    SegmentsWellSegmented(Split(pythonCode, '\n'), IsMarker);
  }

  /** Every cell after the first opens with a marker line (read without its added newline). */
  lemma LaterCellsOpenWithMarker(pythonCode: string)
    ensures forall k | 1 <= k < |NotebookOf(pythonCode).cells| ::
              var src := NotebookOf(pythonCode).cells[k].source;
              src != [] && IsMarker(src[0][..|src[0]| - 1])
  {
    var groups := Segments(Split(pythonCode, '\n'), IsMarker);
    SegmentsWellSegmented(Split(pythonCode, '\n'), IsMarker);
    var cells := NotebookOf(pythonCode).cells;
    assert cells == Cells(groups);
    forall k | 1 <= k < |cells|
      ensures var src := cells[k].source; src != [] && IsMarker(src[0][..|src[0]| - 1])
    {
      assert cells[k].source == WithNewlines(groups[k]);
      assert groups[k] != [] && IsMarker(groups[k][0]);
      StripNewline(groups[k], 0);
    }
  }

  /** A group with no marker after its first line keeps none once newlines are added. */
  lemma NoMarkerAfterFirstLine(group: seq<string>)
    requires NoLaterMarker(group, IsMarker)
    ensures var src := WithNewlines(group);
      forall j | 1 <= j < |src| :: !IsMarker(src[j][..|src[j]| - 1])
  {
    forall j | 1 <= j < |group|
      ensures var src := WithNewlines(group); !IsMarker(src[j][..|src[j]| - 1])
    {
      StripNewline(group, j);
    }
  }

  /** A marker line only ever opens a cell: no cell has one after its first line. */
  lemma MarkersOnlyOpenCells(pythonCode: string)
    ensures forall k | 0 <= k < |NotebookOf(pythonCode).cells| ::
              var src := NotebookOf(pythonCode).cells[k].source;
              forall j | 1 <= j < |src| :: !IsMarker(src[j][..|src[j]| - 1])
  {
    var groups := Segments(Split(pythonCode, '\n'), IsMarker);
    SegmentsWellSegmented(Split(pythonCode, '\n'), IsMarker);
    var cells := NotebookOf(pythonCode).cells;
    assert cells == Cells(groups);
    forall k | 0 <= k < |cells|
      ensures var src := cells[k].source;
              forall j | 1 <= j < |src| :: !IsMarker(src[j][..|src[j]| - 1])
    {
      assert cells[k].source == WithNewlines(groups[k]);
      NoMarkerAfterFirstLine(groups[k]);
    }
  }

  /** The parts of every cell and of the document that do not depend on the script. */
  lemma ConstantParts(pythonCode: string)
    ensures NotebookOf(pythonCode).metadata == FixedMetadata
    ensures NotebookOf(pythonCode).metadata.kernelspec == KernelSpec("Python 3", "python", "python3")
    ensures var info := NotebookOf(pythonCode).metadata.languageInfo;
      && info.codemirrorMode == CodeMirrorMode("ipython", 3)
      && info.fileExtension == ".py"
      && info.mimetype == "text/x-python"
      && info.name == "python"
      && info.nbconvertExporter == "python"
      && info.pygmentsLexer == "ipython3"
      && info.version == "3.8.5"
    ensures NotebookOf(pythonCode).nbformat == 4 && NotebookOf(pythonCode).nbformatMinor == 4
    ensures forall k | 0 <= k < |NotebookOf(pythonCode).cells| ::
              var c := NotebookOf(pythonCode).cells[k];
              c.cellType == "code" && c.executionCount == None && c.metadata == map[] && c.outputs == []
  {
  }

  // ---------------------------------------------------------------------
  // Worked cases
  // ---------------------------------------------------------------------

  lemma TwoGroups(a: string, m: string, b: string, isMarker: string -> bool)
    requires !isMarker(a) && isMarker(m) && !isMarker(b)
    ensures Segments([a, m, b], isMarker) == [[a], [m, b]]
  {
    SegmentsSnoc([], a, isMarker);
    assert [] + [a] == [a];
    assert Segments([a], isMarker) == [[a]];
    SegmentsSnoc([a], m, isMarker);
    assert [a] + [m] == [a, m];
    assert Segments([a, m], isMarker) == [[a], [m]];
    SegmentsSnoc([a, m], b, isMarker);
    assert [a, m] + [b] == [a, m, b];
    assert [m] + [b] == [m, b];
    assert [[a], [m]][..1] + [[m] + [b]] == [[a], [m, b]];
  }

  lemma ThreeGroups(x: string, m1: string, y: string, m2: string, z: string, isMarker: string -> bool)
    requires !isMarker(x) && isMarker(m1) && !isMarker(y) && isMarker(m2) && !isMarker(z)
    ensures Segments([x, m1, y, m2, z], isMarker) == [[x], [m1, y], [m2, z]]
  {
    TwoGroups(x, m1, y, isMarker);
    SegmentsSnoc([x, m1, y], m2, isMarker);
    assert [x, m1, y] + [m2] == [x, m1, y, m2];
    assert Segments([x, m1, y, m2], isMarker) == [[x], [m1, y], [m2]];
    SegmentsSnoc([x, m1, y, m2], z, isMarker);
    assert [x, m1, y, m2] + [z] == [x, m1, y, m2, z];
    assert [m2] + [z] == [m2, z];
    assert [[x], [m1, y], [m2]][..2] + [[m2] + [z]] == [[x], [m1, y], [m2, z]];
  }

  /** The empty script still gives one cell, holding one empty line. */
  lemma EmptyScript()
    ensures NotebookOf("").cells == [CodeCell("code", None, map[], [], ["\n"])]
  {
    SegmentsSnoc([], "", IsMarker);
    assert Split("", '\n') == [""];
    assert Segments([""], IsMarker) == [[""]];
    assert "" + "\n" == "\n";
    assert WithNewlines([""]) == ["\n"];
  }

  /** Three stages give three cells, each after the first opening with its marker. */
  lemma ThreeStages()
    ensures var cells := NotebookOf("x\n# Step 1\ny\n# Step 2\nz").cells;
      |cells| == 3
      && cells[0].source == ["x\n"]
      && cells[1].source == ["# Step 1\n", "y\n"]
      && cells[2].source == ["# Step 2\n", "z\n"]
  {
    assert NotebookOf("x\n# Step 1\ny\n# Step 2\nz").cells
        == [CellOf(["x"]), CellOf(["# Step 1", "y"]), CellOf(["# Step 2", "z"])] by {
      SplitThreeStages();
      ThreeStagesMarkers();
      ThreeGroupCells("x\n# Step 1\ny\n# Step 2\nz", "x", "# Step 1", "y", "# Step 2", "z");
    }
    ThreeStagesSources();
  }

  lemma ThreeStagesMarkers()
    ensures !IsMarker("x") && IsMarker("# Step 1") && !IsMarker("y") && IsMarker("# Step 2") && !IsMarker("z")
  {
    PlainLineIsNotMarker("x");
    PlainLineIsNotMarker("y");
    PlainLineIsNotMarker("z");
    StepLineIsMarker("# Step 1", 0);
    StepLineIsMarker("# Step 2", 0);
  }

  lemma ThreeGroupCells(code: string, x: string, m1: string, y: string, m2: string, z: string)
    requires Split(code, '\n') == [x, m1, y, m2, z]
    requires !IsMarker(x) && IsMarker(m1) && !IsMarker(y) && IsMarker(m2) && !IsMarker(z)
    ensures NotebookOf(code).cells == [CellOf([x]), CellOf([m1, y]), CellOf([m2, z])]
  {
    ThreeGroups(x, m1, y, m2, z, IsMarker);
    var groups := [[x], [m1, y], [m2, z]];
    assert Cells(groups) == [CellOf(groups[0]), CellOf(groups[1]), CellOf(groups[2])];
  }

  lemma ThreeStagesSources()
    ensures WithNewlines(["x"]) == ["x\n"]
    ensures WithNewlines(["# Step 1", "y"]) == ["# Step 1\n", "y\n"]
    ensures WithNewlines(["# Step 2", "z"]) == ["# Step 2\n", "z\n"]
  {
    assert "x" + "\n" == "x\n" && "y" + "\n" == "y\n" && "z" + "\n" == "z\n";
    assert "# Step 1" + "\n" == "# Step 1\n" && "# Step 2" + "\n" == "# Step 2\n";
  }

  lemma SplitThreeStages()
    ensures Split("x\n# Step 1\ny\n# Step 2\nz", '\n') == ["x", "# Step 1", "y", "# Step 2", "z"]
  {
    var lines := ["x", "# Step 1", "y", "# Step 2", "z"];
    assert Join(lines, '\n') == "x\n# Step 1\ny\n# Step 2\nz";
    SplitJoin(lines, '\n');
  }

  /**
   * Carriage returns stay: the marker test trims them, the cells keep them,
   * and the indented marker opens its cell untrimmed.
   */
  lemma CrLfScript()
    ensures var cells := NotebookOf("a\r\n  # Step 1\r\nb").cells;
      |cells| == 2
      && cells[0].source == ["a\r\n"]
      && cells[1].source == ["  # Step 1\r\n", "b\n"]
  {
    assert NotebookOf("a\r\n  # Step 1\r\nb").cells == [CellOf(["a\r"]), CellOf(["  # Step 1\r", "b"])] by {
      SplitCrLfScript();
      CrLfScriptMarkers();
      TwoGroupCells("a\r\n  # Step 1\r\nb", "a\r", "  # Step 1\r", "b");
    }
    CrLfScriptSources();
  }

  lemma CrLfScriptMarkers()
    ensures !IsMarker("a\r") && IsMarker("  # Step 1\r") && !IsMarker("b")
  {
    PlainLineIsNotMarker("a\r");
    PlainLineIsNotMarker("b");
    StepLineIsMarker("  # Step 1\r", 2);
  }

  lemma TwoGroupCells(code: string, a: string, m: string, b: string)
    requires Split(code, '\n') == [a, m, b]
    requires !IsMarker(a) && IsMarker(m) && !IsMarker(b)
    ensures NotebookOf(code).cells == [CellOf([a]), CellOf([m, b])]
  {
    TwoGroups(a, m, b, IsMarker);
    var groups := [[a], [m, b]];
    assert Cells(groups) == [CellOf(groups[0]), CellOf(groups[1])];
  }

  lemma CrLfScriptSources()
    ensures WithNewlines(["a\r"]) == ["a\r\n"]
    ensures WithNewlines(["  # Step 1\r", "b"]) == ["  # Step 1\r\n", "b\n"]
  {
    assert "a\r" + "\n" == "a\r\n" && "  # Step 1\r" + "\n" == "  # Step 1\r\n" && "b" + "\n" == "b\n";
  }

  lemma SplitCrLfScript()
    ensures Split("a\r\n  # Step 1\r\nb", '\n') == ["a\r", "  # Step 1\r", "b"]
  {
    var lines := ["a\r", "  # Step 1\r", "b"];
    assert Join(lines, '\n') == "a\r\n  # Step 1\r\nb";
    SplitJoin(lines, '\n');
  }
}
