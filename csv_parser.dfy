/**
 * The `complete` callback of `parseCSV` in `utils/csvParser.ts`: what is done
 * with the rows, header fields and errors the CSV tokenizer delivers. It
 * rejects a parse that produced errors and no rows; otherwise it builds the
 * dataset descriptor, inferring each column's type from the first rows.
 *
 * The tokenizer itself, and the meaning of JavaScript's `Number(v)` and
 * `Date.parse(s)`, are outside this model: the two tests enter as parameters,
 * `numberIsNaN(s)` for "`Number(s)` is NaN" and `dateParses(s)` for
 * "`Date.parse(s)` is truthy" (neither NaN nor 0).
 */
module CsvParser {
  import opened Wrappers

  // ---------------------------------------------------------------------
  // Data (types.ts)
  // ---------------------------------------------------------------------

  /**
   * A cell as the callback reads it: `null`, a string (the empty string `''`
   * is `Str("")`), or `undefined` when the row has no such key.
   */
  datatype Value = Null | Str(s: string) | Missing

  /** One data row: header name to value. */
  type DataRow = map<string, Value>

  /** The three inferred types; `columnTypes` stores their labels. */
  datatype ColumnType = Numeric | Datetime | CategoricalText {
    /** The label stored in `columnTypes`. */
    function Label(): string {
      match this
      case Numeric => "Numeric"
      case Datetime => "Datetime"
      case CategoricalText => "Categorical/Text"
    }
  }

  datatype DatasetInfo = DatasetInfo(
    filename: string,
    rowCount: nat,
    columns: seq<string>,
    preview: seq<DataRow>,
    columnTypes: map<string, string>)

  /** A tokenizer error; only its message is read. */
  datatype TokenizerError = TokenizerError(message: string)

  /** What the tokenizer hands to `complete`: `data`, `meta.fields` (possibly undefined) and `errors`. */
  datatype ParseResults = ParseResults(
    data: seq<DataRow>,
    fields: Option<seq<string>>,
    errors: seq<TokenizerError>)

  const SampleLimit: nat := 100
  const PreviewLimit: nat := 5

  // ---------------------------------------------------------------------
  // Reading one value
  // ---------------------------------------------------------------------

  /** `row[col]`: an absent key reads as `undefined`. */
  function Lookup(row: DataRow, col: string): Value {
    if col in row then row[col] else Missing
  }

  /** `val === null || val === ''`: the values the scan skips. `undefined` is not one of them. */
  predicate Skipped(v: Value) {
    v == Null || v == Str("")
  }

  /** `String(v)`. */
  function ToJsString(v: Value): string {
    match v
    case Null => "null"
    case Str(s) => s
    case Missing => "undefined"
  }

  /**
   * `isNaN(Number(v))`. By ToNumber (ECMA-262, section 7.1.4) `Number(null)`
   * is 0 and `Number(undefined)` is NaN; a string defers to `numberIsNaN`.
   */
  predicate NotANumber(v: Value, numberIsNaN: string -> bool) {
    match v
    case Null => false
    case Missing => true
    case Str(s) => numberIsNaN(s)
  }

  /** The value leaves the numeric flag set. */
  predicate NumericOk(v: Value, numberIsNaN: string -> bool) {
    Skipped(v) || !NotANumber(v, numberIsNaN)
  }

  /** The value leaves the date flag set: `Date.parse(String(v))` is truthy. */
  predicate DateOk(v: Value, dateParses: string -> bool) {
    Skipped(v) || dateParses(ToJsString(v))
  }

  // ---------------------------------------------------------------------
  // Column type inference, as a specification
  // ---------------------------------------------------------------------

  /** `Math.min(data.length, 100)`: the rows the scan inspects. */
  function SampleSize(n: nat): (k: nat)
    ensures k <= n && k <= SampleLimit
    ensures k == n || k == SampleLimit
  {
    if n < SampleLimit then n else SampleLimit
  }

  /** Every one of the first `k` rows leaves the numeric flag set for `col`. */
  predicate AllNumeric(rows: seq<DataRow>, col: string, k: nat, numberIsNaN: string -> bool)
    requires k <= |rows|
  {
    forall i | 0 <= i < k :: NumericOk(Lookup(rows[i], col), numberIsNaN)
  }

  /** Every one of the first `k` rows leaves the date flag set for `col`. */
  predicate AllDates(rows: seq<DataRow>, col: string, k: nat, dateParses: string -> bool)
    requires k <= |rows|
  {
    forall i | 0 <= i < k :: DateOk(Lookup(rows[i], col), dateParses)
  }

  /** The decision after the scan: numeric first, then date, then text. */
  function Classify(isNumeric: bool, isDate: bool): ColumnType {
    if isNumeric then Numeric else if isDate then Datetime else CategoricalText
  }

  /** The type the scan gives column `col`. */
  function InferredType(rows: seq<DataRow>, col: string, numberIsNaN: string -> bool, dateParses: string -> bool): ColumnType {
    var n := SampleSize(|rows|);
    Classify(AllNumeric(rows, col, n, numberIsNaN), AllDates(rows, col, n, dateParses))
  }

  /** `columnTypes`: no entry at all without rows, otherwise each column name's label. */
  function ColumnTypes(rows: seq<DataRow>, columns: seq<string>, numberIsNaN: string -> bool, dateParses: string -> bool): map<string, string> {
    if |rows| == 0 then map[]
    else map c | c in columns :: InferredType(rows, c, numberIsNaN, dateParses).Label()
  }

  // ---------------------------------------------------------------------
  // The callback
  // ---------------------------------------------------------------------

  /** Scans the sample of one column with the two flags and classifies it. */
  method InferColumnType(data: seq<DataRow>, col: string, numberIsNaN: string -> bool, dateParses: string -> bool)
    returns (t: ColumnType)
    ensures t == InferredType(data, col, numberIsNaN, dateParses)
  {
    var sampleSize := SampleSize(|data|);
    var isNumeric := true;
    var isDate := true;
    for i := 0 to sampleSize
      invariant isNumeric == AllNumeric(data, col, i, numberIsNaN)
      invariant isDate == AllDates(data, col, i, dateParses)
    {
      var val := Lookup(data[i], col);
      if Skipped(val) {
        continue;
      }
      if NotANumber(val, numberIsNaN) {
        isNumeric := false;
      }
      if !dateParses(ToJsString(val)) {
        isDate := false;
      }
    }
    if isNumeric {
      t := Numeric;
    } else if isDate {
      t := Datetime;
    } else {
      t := CategoricalText;
    }
  }

  /** Fills `columnTypes` column by column, as the `forEach` over the header does. */
  method InferColumnTypes(data: seq<DataRow>, columns: seq<string>, numberIsNaN: string -> bool, dateParses: string -> bool)
    returns (columnTypes: map<string, string>)
    ensures columnTypes == ColumnTypes(data, columns, numberIsNaN, dateParses)
  {
    columnTypes := map[];
    if |data| > 0 {
      for j := 0 to |columns|
        invariant columnTypes == map c | c in columns[..j] :: InferredType(data, c, numberIsNaN, dateParses).Label()
      {
        var col := columns[j];
        var t := InferColumnType(data, col, numberIsNaN, dateParses);
        columnTypes := columnTypes[col := t.Label()];
        assert columns[..j + 1] == columns[..j] + [col];
      }
      assert columns[..|columns|] == columns;
    }
  }

  /**
   * The `complete` callback: the rejection message, or the descriptor for
   * the file named `filename`.
   */
  method Complete(results: ParseResults, filename: string, numberIsNaN: string -> bool, dateParses: string -> bool)
    returns (r: Result<DatasetInfo, string>)
    ensures r.Err? <==> |results.errors| > 0 && |results.data| == 0
    ensures r.Err? ==> r.error == "Error parsing CSV: " + results.errors[0].message
    ensures r.Ok? ==> r.value.filename == filename
    ensures r.Ok? ==> r.value.rowCount == |results.data|
    ensures r.Ok? ==> r.value.columns == results.fields.GetOr([])
    ensures r.Ok? ==> |r.value.preview| == if |results.data| < PreviewLimit then |results.data| else PreviewLimit
    ensures r.Ok? ==> forall i | 0 <= i < |r.value.preview| :: r.value.preview[i] == results.data[i]
    ensures r.Ok? ==> r.value.columnTypes == ColumnTypes(results.data, r.value.columns, numberIsNaN, dateParses)
  {
    if |results.errors| > 0 && |results.data| == 0 {
      return Err("Error parsing CSV: " + results.errors[0].message);
    }
    var data := results.data;
    var columns := results.fields.GetOr([]);
    var columnTypes := InferColumnTypes(data, columns, numberIsNaN, dateParses);
    var preview := data[..if |data| < PreviewLimit then |data| else PreviewLimit];
    r := Ok(DatasetInfo(filename, |data|, columns, preview, columnTypes));
  }

  // ---------------------------------------------------------------------
  // What the descriptor promises
  // ---------------------------------------------------------------------

  /** With rows, every header name gets exactly one type; without rows, none does. */
  lemma ColumnTypesDomain(rows: seq<DataRow>, columns: seq<string>, numberIsNaN: string -> bool, dateParses: string -> bool)
    ensures |rows| == 0 ==> ColumnTypes(rows, columns, numberIsNaN, dateParses) == map[]
    ensures |rows| > 0 ==> ColumnTypes(rows, columns, numberIsNaN, dateParses).Keys == set c | c in columns
    ensures forall c | c in ColumnTypes(rows, columns, numberIsNaN, dateParses) ::
              ColumnTypes(rows, columns, numberIsNaN, dateParses)[c] in {"Numeric", "Datetime", "Categorical/Text"}
  {
  }

  /** Each label names one type, so `columnTypes` can be read back as types. */
  lemma LabelsDistinct(t: ColumnType, u: ColumnType)
    ensures t.Label() == u.Label() <==> t == u
  {
    if t != u {
      assert t.Label()[0] != u.Label()[0];
    }
  }

  /** Only the first 100 rows matter: rows that agree on their samples get the same types. */
  lemma SampleWindowOnly(rows: seq<DataRow>, rows': seq<DataRow>, columns: seq<string>, numberIsNaN: string -> bool, dateParses: string -> bool)
    requires rows[..SampleSize(|rows|)] == rows'[..SampleSize(|rows'|)]
    ensures ColumnTypes(rows, columns, numberIsNaN, dateParses) == ColumnTypes(rows', columns, numberIsNaN, dateParses)
  {
    var n := SampleSize(|rows|);
    assert n == SampleSize(|rows'|);
    assert forall i | 0 <= i < n :: rows[i] == rows[..n][i] && rows'[i] == rows'[..n][i];
    forall c | c in columns
      ensures InferredType(rows, c, numberIsNaN, dateParses) == InferredType(rows', c, numberIsNaN, dateParses)
    {
      assert AllNumeric(rows, c, n, numberIsNaN) == AllNumeric(rows', c, n, numberIsNaN);
      assert AllDates(rows, c, n, dateParses) == AllDates(rows', c, n, dateParses);
    }
  }

  /** Changing a row at index 100 or beyond never changes `columnTypes`. */
  lemma RowsBeyondSampleIgnored(rows: seq<DataRow>, i: nat, row: DataRow, columns: seq<string>, numberIsNaN: string -> bool, dateParses: string -> bool)
    requires SampleLimit <= i < |rows|
    ensures ColumnTypes(rows[i := row], columns, numberIsNaN, dateParses) == ColumnTypes(rows, columns, numberIsNaN, dateParses)
  {
    assert rows[i := row][..SampleLimit] == rows[..SampleLimit];
    SampleWindowOnly(rows[i := row], rows, columns, numberIsNaN, dateParses);
  }

  /**
   * The priority of the three types, both ways: `Numeric` exactly when no
   * sampled value is "not a number"; `Datetime` exactly when some is but
   * every one parses as a date; text otherwise.
   */
  lemma TypePriority(rows: seq<DataRow>, col: string, numberIsNaN: string -> bool, dateParses: string -> bool)
    ensures var n := SampleSize(|rows|);
      var t := InferredType(rows, col, numberIsNaN, dateParses);
      && (t == Numeric <==> forall i | 0 <= i < n :: NumericOk(Lookup(rows[i], col), numberIsNaN))
      && (t == Datetime <==>
            (exists i | 0 <= i < n :: !NumericOk(Lookup(rows[i], col), numberIsNaN))
            && forall i | 0 <= i < n :: DateOk(Lookup(rows[i], col), dateParses))
      && (t == CategoricalText <==>
            (exists i | 0 <= i < n :: !NumericOk(Lookup(rows[i], col), numberIsNaN))
            && exists i | 0 <= i < n :: !DateOk(Lookup(rows[i], col), dateParses))
  {
  }

  /**
   * A column whose sampled values are all `null` or `''` is `Numeric`,
   * whatever the two tests say: both flags stay set and numeric is checked
   * first.
   */
  lemma AllSkippedIsNumeric(rows: seq<DataRow>, col: string, numberIsNaN: string -> bool, dateParses: string -> bool)
    requires forall i | 0 <= i < SampleSize(|rows|) :: Skipped(Lookup(rows[i], col))
    ensures InferredType(rows, col, numberIsNaN, dateParses) == Numeric
  {
  }

  /**
   * A sampled row without the column reads `undefined`, which is not skipped
   * and is not a number: the column is not `Numeric`, and is text unless
   * `Date.parse("undefined")` is truthy.
   */
  lemma MissingKeyNotNumeric(rows: seq<DataRow>, col: string, i: nat, numberIsNaN: string -> bool, dateParses: string -> bool)
    requires i < SampleSize(|rows|) && col !in rows[i]
    ensures InferredType(rows, col, numberIsNaN, dateParses) != Numeric
    ensures !dateParses("undefined") ==> InferredType(rows, col, numberIsNaN, dateParses) == CategoricalText
  {
    assert !NumericOk(Lookup(rows[i], col), numberIsNaN);
    assert !dateParses("undefined") ==> !DateOk(Lookup(rows[i], col), dateParses);
  }

  /** A flag once cleared stays cleared: a longer scan never sets it again. */
  lemma FlagsMonotone(rows: seq<DataRow>, col: string, k: nat, m: nat, numberIsNaN: string -> bool, dateParses: string -> bool)
    requires k <= m <= |rows|
    ensures !AllNumeric(rows, col, k, numberIsNaN) ==> !AllNumeric(rows, col, m, numberIsNaN)
    ensures !AllDates(rows, col, k, dateParses) ==> !AllDates(rows, col, m, dateParses)
  {
  }

  /**
   * Three one-column tables: `"1","2","3"` is `Numeric`, two ISO dates are
   * `Datetime`, and colour names are text, given what `Number` and
   * `Date.parse` return for those strings.
   */
  lemma ExampleColumns(numberIsNaN: string -> bool, dateParses: string -> bool)
    requires !numberIsNaN("1") && !numberIsNaN("2") && !numberIsNaN("3")
    requires numberIsNaN("2024-01-01") && numberIsNaN("2024-02-01")
    requires dateParses("2024-01-01") && dateParses("2024-02-01")
    requires numberIsNaN("red") && !dateParses("red")
    ensures InferredType([map["n" := Str("1")], map["n" := Str("2")], map["n" := Str("3")]], "n", numberIsNaN, dateParses) == Numeric
    ensures InferredType([map["d" := Str("2024-01-01")], map["d" := Str("2024-02-01")]], "d", numberIsNaN, dateParses) == Datetime
    ensures InferredType([map["c" := Str("red")], map["c" := Str("blue")], map["c" := Str("red")]], "c", numberIsNaN, dateParses) == CategoricalText
  {
    var d := [map["d" := Str("2024-01-01")], map["d" := Str("2024-02-01")]];
    assert !NumericOk(Lookup(d[0], "d"), numberIsNaN);
    var c := [map["c" := Str("red")], map["c" := Str("blue")], map["c" := Str("red")]];
    assert !NumericOk(Lookup(c[0], "c"), numberIsNaN);
    assert !DateOk(Lookup(c[0], "c"), dateParses);
  }
}
