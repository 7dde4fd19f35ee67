/**
 * The notebook download of `components/ResultsView.tsx`: which script is
 * turned into the notebook, and the name of the downloaded file. The Blob,
 * the link element, the clipboard and the rendering are not modelled.
 */
module ResultsView {
  import opened Wrappers
  import opened JsString
  import NotebookGenerator

  /** types.ts: one stage of the generated roadmap. */
  datatype RoadmapStep = RoadmapStep(
    stage: string,
    description: string,
    tasks: seq<string>,
    algorithms: Option<seq<string>>,
    reasoning: string)

  /** types.ts: what the generator service returns. */
  datatype GeneratedResult = GeneratedResult(
    roadmap: seq<RoadmapStep>,
    pythonCode: string,
    analysisSummary: string)

  /** What the download hands to the browser: a file name and the notebook document. */
  datatype NotebookDownload = NotebookDownload(fileName: string, document: NotebookGenerator.Notebook)

  const Prefix: string := "AutoDS_"
  const Extension: string := ".ipynb"
  const CsvSuffix: string := ".csv"

  /** `filename.replace('.csv', '')`: the first `.csv`, wherever it stands, is removed. */
  function Stem(filename: string): (stem: string)
    ensures !Contains(filename, CsvSuffix) ==> stem == filename
    ensures Contains(filename, CsvSuffix) ==> |stem| == |filename| - |CsvSuffix|
  {
    ReplaceFirst(filename, CsvSuffix, "")
  }

  /** `AutoDS_${filename.replace('.csv', '')}.ipynb`. */
  function DownloadName(filename: string): (name: string)
    ensures |name| == |filename| + (if Contains(filename, CsvSuffix) then 9 else 13)
    ensures name[..7] == Prefix && name[|name| - 6..] == Extension
    ensures name[7..|name| - 6] == Stem(filename)
  {
    Prefix + Stem(filename) + Extension
  }

  /**
   * When the first `.` of the name begins a `.csv`, that `.csv` is what the
   * download name drops, whatever follows it.
   */
  lemma FirstCsvDropped(head: string, tail: string)
    requires forall j | 0 <= j < |head| :: head[j] != '.'
    ensures DownloadName(head + CsvSuffix + tail) == Prefix + head + tail + Extension
  {
    var filename := head + CsvSuffix + tail;
    var i := |head|;
    assert filename[i..i + 4] == CsvSuffix;
    forall j: nat | j < i && j + 4 <= |filename|
      ensures !OccursAt(filename, CsvSuffix, j)
    {
      assert filename[j..j + 4][0] == head[j];
    }
    assert OccursAt(filename, CsvSuffix, i);
    var r := IndexOf(filename, CsvSuffix);
    assert r.Some? && r.value <= i;
    assert OccursAt(filename, CsvSuffix, r.value);
    assert r.value == i;
    assert filename[..i] == head;
    assert filename[i + 4..] == tail;
    assert Stem(filename) == head + "" + tail;
  }

  /** A name without `.csv` is kept whole. */
  lemma NoCsvName(filename: string)
    requires filename == "data.tsv"
    ensures DownloadName(filename) == "AutoDS_data.tsv.ipynb"
  {
    forall j: nat ensures !OccursAt(filename, CsvSuffix, j) {
      if j == 4 {
        assert filename[4..8][1] == 't';
      } else if j < 4 {
        assert filename[j..j + 4][0] == filename[j];
      }
    }
    assert Prefix + filename + Extension == "AutoDS_data.tsv.ipynb";
  }

  /**
   * `downloadNotebook`: the notebook is generated from the same
   * `result.pythonCode` that the code tab shows and the copy button copies.
   */
  method DownloadNotebook(result: GeneratedResult, filename: string) returns (d: NotebookDownload)
    ensures d.document == NotebookGenerator.NotebookOf(result.pythonCode)
    ensures d.fileName == DownloadName(filename)
  {
    var jsonContent := NotebookGenerator.GenerateNotebook(result.pythonCode);
    d := NotebookDownload(DownloadName(filename), jsonContent);
  }
}
