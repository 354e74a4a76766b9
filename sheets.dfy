/**
 * The spreadsheet side of the tools: rows read from Excel files and the
 * key -> value mapping built from them, where a later row or a later file
 * overwrites an earlier one with the same key.
 */
module Sheets {
  import opened Outcomes
  import opened PyStr
  import opened Pairs

  /**
   * The cells of one row under the `Label` and `API_Name` columns; `None` is
   * a cell pandas reads as missing (NaN).
   */
  datatype Row = Row(labelCell: Option<string>, apiCell: Option<string>)

  /** One worksheet: its header row and its data rows, in order. */
  datatype Sheet = Sheet(headers: seq<string>, rows: seq<Row>)

  /** One entry of the mapping directory: its file name and its content. */
  datatype SheetFile = SheetFile(name: string, sheet: Sheet)

  /** A key -> value pair, written into the mapping in order. */
  type Pair = (string, string)

  /** Every value was trimmed. */
  predicate ValuesTrimmed(m: map<string, string>) {
    forall k :: k in m ==> Trim(m[k]) == m[k]
  }

  /** Whether a directory tool reads a file and which column gives the key. */
  datatype KeyRule =
    | LowerLabelToApi  // key `str(Label).strip().lower()`, value `str(API_Name).strip()`
    | ApiToLabel       // key `str(API_Name).strip()`, value `str(Label).strip()`

  /** `str(cell)`: pandas turns a missing cell into NaN, which prints as "nan". */
  function CellText(c: Option<string>): string {
    match c
    case Some(s) => s
    case None => "nan"
  }

  /** The pair one row writes into the mapping under `rule`. */
  function RowPair(row: Row, rule: KeyRule): Pair {
    var labelText := Trim(CellText(row.labelCell));
    var apiText := Trim(CellText(row.apiCell));
    match rule
    case LowerLabelToApi => (Lower(labelText), apiText)
    case ApiToLabel => (apiText, labelText)
  }

  /**
   * A directory tool reads a file only when its name ends in `.xlsx` and its
   * header row has both the `Label` and the `API_Name` column.
   */
  predicate Accepted(f: SheetFile) {
    EndsWith(f.name, ".xlsx") && "Label" in f.sheet.headers && "API_Name" in f.sheet.headers
  }

  /** The pairs of `rows`, one per row, in order. */
  function RowPairs(rows: seq<Row>, rule: KeyRule): (ps: seq<Pair>)
    ensures |ps| == |rows|
    ensures forall k :: 0 <= k < |rows| ==> ps[k] == RowPair(rows[k], rule)
  {
    seq(|rows|, k requires 0 <= k < |rows| => RowPair(rows[k], rule))
  }

  /** The pairs one file writes: all of its rows, or none when it is skipped. */
  function FilePairs(f: SheetFile, rule: KeyRule): seq<Pair> {
    if Accepted(f) then RowPairs(f.sheet.rows, rule) else []
  }

  /** The pairs of each file, in listing order. */
  function FileChunks(files: seq<SheetFile>, rule: KeyRule): (cs: seq<seq<Pair>>)
    ensures |cs| == |files|
    ensures forall i :: 0 <= i < |files| ==> cs[i] == FilePairs(files[i], rule)
  {
    seq(|files|, i requires 0 <= i < |files| => FilePairs(files[i], rule))
  }

  /** The pairs of a whole directory, file after file in listing order. */
  function DirPairs(files: seq<SheetFile>, rule: KeyRule): seq<Pair> {
    Concat(FileChunks(files, rule))
  }

  /** The mapping a directory tool builds from `files`. */
  function DirMapping(files: seq<SheetFile>, rule: KeyRule): map<string, string> {
    FromPairs(DirPairs(files, rule))
  }

  lemma DirPairsAppend(a: seq<SheetFile>, b: seq<SheetFile>, rule: KeyRule)
    ensures DirPairs(a + b, rule) == DirPairs(a, rule) + DirPairs(b, rule)
  {
    assert FileChunks(a + b, rule) == FileChunks(a, rule) + FileChunks(b, rule);
    ConcatAppend(FileChunks(a, rule), FileChunks(b, rule));
  }

  lemma DirPairsOne(f: SheetFile, rule: KeyRule)
    ensures DirPairs([f], rule) == FilePairs(f, rule)
  {
    assert FileChunks([f], rule) == [FilePairs(f, rule)];
    ConcatOne(FilePairs(f, rule));
  }

  /** Reading one more file appends its pairs. */
  lemma DirPairsSnocFile(earlier: seq<SheetFile>, f: SheetFile, rule: KeyRule)
    ensures DirPairs(earlier + [f], rule) == DirPairs(earlier, rule) + FilePairs(f, rule)
  {
    DirPairsAppend(earlier, [f], rule);
    DirPairsOne(f, rule);
  }

  /** A later file overrides an earlier one on every key both define. */
  lemma DirMappingAppend(a: seq<SheetFile>, b: seq<SheetFile>, rule: KeyRule)
    ensures DirMapping(a + b, rule) == DirMapping(a, rule) + DirMapping(b, rule)
  {
    DirPairsAppend(a, b, rule);
    FromPairsAppend(DirPairs(a, rule), DirPairs(b, rule));
  }

  /** A file that is not `.xlsx` or lacks a required column contributes nothing. */
  lemma SkippedFileContributesNothing(a: seq<SheetFile>, f: SheetFile, b: seq<SheetFile>, rule: KeyRule)
    requires !Accepted(f)
    ensures DirMapping(a + [f] + b, rule) == DirMapping(a + b, rule)
  {
    DirPairsAppend(a + [f], b, rule);
    DirPairsAppend(a, [f], rule);
    DirPairsAppend(a, b, rule);
    DirPairsOne(f, rule);
    assert DirPairs(a + [f], rule) == DirPairs(a, rule) + [];
    assert DirPairs(a, rule) + [] == DirPairs(a, rule);
  }

  /**
   * Within the last file read, when it is accepted, a key takes the value of
   * the last row that produces it, whatever earlier files said.
   */
  lemma LastRowWins(earlier: seq<SheetFile>, f: SheetFile, rule: KeyRule, j: nat)
    requires Accepted(f) && j < |f.sheet.rows|
    requires forall k :: j < k < |f.sheet.rows| ==>
      RowPair(f.sheet.rows[k], rule).0 != RowPair(f.sheet.rows[j], rule).0
    ensures RowPair(f.sheet.rows[j], rule).0 in DirMapping(earlier + [f], rule)
    ensures DirMapping(earlier + [f], rule)[RowPair(f.sheet.rows[j], rule).0] == RowPair(f.sheet.rows[j], rule).1
  {
    DirPairsSnocFile(earlier, f, rule);
    FromPairsLastWinsAfter(DirPairs(earlier, rule), RowPairs(f.sheet.rows, rule), j);
  }

  /** A pair is normalised: its value is trimmed and, under `rule`, its key lower-case. */
  predicate PairNormalised(p: Pair, rule: KeyRule) {
    Trim(p.1) == p.1 && (rule == LowerLabelToApi ==> Lower(p.0) == p.0)
  }

  lemma RowPairNormalised(row: Row, rule: KeyRule)
    ensures PairNormalised(RowPair(row, rule), rule)
  {
    var l, a := CellText(row.labelCell), CellText(row.apiCell);
    TrimIdempotent(l);
    TrimIdempotent(a);
    LowerIdempotent(Trim(l));
    match rule
    case LowerLabelToApi =>
      assert RowPair(row, rule) == (Lower(Trim(l)), Trim(a));
    case ApiToLabel =>
      assert RowPair(row, rule) == (Trim(a), Trim(l));
  }

  lemma DirPairsNormalised(files: seq<SheetFile>, rule: KeyRule)
    ensures forall p :: p in DirPairs(files, rule) ==> PairNormalised(p, rule)
  {
    forall p | p in DirPairs(files, rule) ensures PairNormalised(p, rule) {
      var cs := FileChunks(files, rule);
      ConcatMember(cs, p);
      var i :| 0 <= i < |cs| && p in cs[i];
      var k :| 0 <= k < |cs[i]| && cs[i][k] == p;
      RowPairNormalised(files[i].sheet.rows[k], rule);
    }
  }

  /** Every pair of a directory was written by some row of an accepted file. */
  lemma DirPairsFrom(files: seq<SheetFile>, rule: KeyRule, p: Pair)
    requires p in DirPairs(files, rule)
    ensures
      exists i, j :: 0 <= i < |files| && Accepted(files[i]) && 0 <= j < |files[i].sheet.rows|
        && RowPair(files[i].sheet.rows[j], rule) == p
  {
    var cs := FileChunks(files, rule);
    ConcatMember(cs, p);
    var i :| 0 <= i < |cs| && p in cs[i];
    var j :| 0 <= j < |cs[i]| && cs[i][j] == p;
    assert Accepted(files[i]) && RowPair(files[i].sheet.rows[j], rule) == p;
  }

  /** Every row of an accepted file writes its pair. */
  lemma DirPairsHas(files: seq<SheetFile>, rule: KeyRule, i: nat, j: nat)
    requires i < |files| && Accepted(files[i]) && j < |files[i].sheet.rows|
    ensures RowPair(files[i].sheet.rows[j], rule) in DirPairs(files, rule)
  {
    var cs := FileChunks(files, rule);
    assert cs[i][j] == RowPair(files[i].sheet.rows[j], rule);
    ConcatContains(cs, i, RowPair(files[i].sheet.rows[j], rule));
  }

  /** A key is in a directory mapping exactly when some row of an accepted file writes it. */
  lemma DirMappingKeys(files: seq<SheetFile>, rule: KeyRule, key: string)
    ensures key in DirMapping(files, rule) <==>
      exists i, j :: 0 <= i < |files| && Accepted(files[i]) && 0 <= j < |files[i].sheet.rows|
        && RowPair(files[i].sheet.rows[j], rule).0 == key
  {
    var ps := DirPairs(files, rule);
    FromPairsDomain(ps);
    if key in FromPairs(ps) {
      DirPairsFrom(files, rule, (key, FromPairs(ps)[key]));
    }
    if exists i, j :: 0 <= i < |files| && Accepted(files[i]) && 0 <= j < |files[i].sheet.rows|
        && RowPair(files[i].sheet.rows[j], rule).0 == key {
      var i, j :| 0 <= i < |files| && Accepted(files[i]) && 0 <= j < |files[i].sheet.rows|
        && RowPair(files[i].sheet.rows[j], rule).0 == key;
      DirPairsHas(files, rule, i, j);
      var k :| 0 <= k < |ps| && ps[k] == RowPair(files[i].sheet.rows[j], rule);
    }
  }

  /**
   * Under the API-to-label rule the keys are exactly the stripped `API_Name`
   * cells of the accepted files' rows, matched case-sensitively.
   */
  lemma DirMappingApiKeys(files: seq<SheetFile>, key: string)
    ensures key in DirMapping(files, ApiToLabel) <==>
      exists i, j :: 0 <= i < |files| && Accepted(files[i]) && 0 <= j < |files[i].sheet.rows|
        && Trim(CellText(files[i].sheet.rows[j].apiCell)) == key
  {
    DirMappingKeys(files, ApiToLabel, key);
    assert forall row :: RowPair(row, ApiToLabel).0 == Trim(CellText(row.apiCell));
  }

  /** Every value of a directory mapping is trimmed, and under the lower-case rule every key is lower-case. */
  lemma DirMappingNormalised(files: seq<SheetFile>, rule: KeyRule)
    ensures ValuesTrimmed(DirMapping(files, rule))
    ensures rule == LowerLabelToApi ==> forall k :: k in DirMapping(files, rule) ==> Lower(k) == k
  {
    var ps := DirPairs(files, rule);
    DirPairsNormalised(files, rule);
    FromPairsDomain(ps);
    forall k | k in FromPairs(ps) ensures PairNormalised((k, FromPairs(ps)[k]), rule) {
      assert (k, FromPairs(ps)[k]) in ps;
    }
  }

  /** Writing one more row writes its pair last. */
  lemma RowPairsSnoc(done: seq<Pair>, rows: seq<Row>, j: nat, rule: KeyRule)
    requires j < |rows|
    ensures FromPairs(done + RowPairs(rows[..j + 1], rule))
      == FromPairs(done + RowPairs(rows[..j], rule))[RowPair(rows[j], rule).0 := RowPair(rows[j], rule).1]
  {
    var p := RowPair(rows[j], rule);
    assert RowPairs(rows[..j + 1], rule) == RowPairs(rows[..j], rule) + [p];
    assert done + RowPairs(rows[..j + 1], rule) == (done + RowPairs(rows[..j], rule)) + [p];
    FromPairsSnoc(done + RowPairs(rows[..j], rule), p);
  }

  /** Reading the file at index `i` appends its pairs to those of the files before it. */
  lemma DirPairsSnoc(files: seq<SheetFile>, i: nat, rule: KeyRule)
    requires i < |files|
    ensures DirPairs(files[..i + 1], rule) == DirPairs(files[..i], rule) + FilePairs(files[i], rule)
  {
    assert files[..i + 1] == files[..i] + [files[i]];
    DirPairsSnocFile(files[..i], files[i], rule);
  }

  /**
   * The row loop of one accepted file: writes each row's pair into `mapping`,
   * which holds the writes `done` of the files before it.
   */
  method WriteRows(mapping: map<string, string>, ghost done: seq<Pair>, rows: seq<Row>, rule: KeyRule)
    returns (result: map<string, string>)
    requires mapping == FromPairs(done)
    ensures result == FromPairs(done + RowPairs(rows, rule))
  {
    result := mapping;
    var j := 0;
    assert done + RowPairs(rows[..0], rule) == done;
    while j < |rows|
      invariant 0 <= j <= |rows|
      invariant result == FromPairs(done + RowPairs(rows[..j], rule))
    {
      var p := RowPair(rows[j], rule);
      RowPairsSnoc(done, rows, j, rule);
      result := result[p.0 := p.1];
      j := j + 1;
    }
    assert rows[..j] == rows;
  }

  /**
   * The mapping loop of the directory tools: every `.xlsx` file in listing
   * order, skipping one without both columns, writes each row's pair.
   */
  method BuildDirMapping(files: seq<SheetFile>, rule: KeyRule) returns (mapping: map<string, string>)
    ensures mapping == DirMapping(files, rule)
  {
    mapping := map[];
    var i := 0;
    while i < |files|
      invariant 0 <= i <= |files|
      invariant mapping == FromPairs(DirPairs(files[..i], rule))
    {
      var f := files[i];
      DirPairsSnoc(files, i, rule);
      if EndsWith(f.name, ".xlsx") && "Label" in f.sheet.headers && "API_Name" in f.sheet.headers {
        assert FilePairs(f, rule) == RowPairs(f.sheet.rows, rule);
        mapping := WriteRows(mapping, DirPairs(files[..i], rule), f.sheet.rows, rule);
      } else {
        assert FilePairs(f, rule) == [];
        assert DirPairs(files[..i], rule) + [] == DirPairs(files[..i], rule);
      }
      assert mapping == FromPairs(DirPairs(files[..i + 1], rule));
      i := i + 1;
    }
    assert files[..i] == files;
  }

  /* Single-workbook mapping of the Excel-driven tool. */

  /** The error raised when a required column is missing after stripping the headers. */
  const MissingColumnsMessage := "Excel must have columns: Label, API_Name"

  /** Some header, once stripped, is `name`. */
  predicate HasColumn(headers: seq<string>, name: string) {
    exists h :: h in headers && Trim(h) == name
  }

  /**
   * Two different headers strip to `name`: the renamed frame then has two
   * such columns, selecting it gives a frame rather than a column, and
   * `.str` raises. A header repeated verbatim does not count: the reader
   * has already renamed the repeat with a `.1` suffix, which does not
   * strip to a required name.
   */
  predicate DuplicateColumn(headers: seq<string>, name: string) {
    exists a, b :: 0 <= a < b < |headers| && headers[a] != headers[b]
      && Trim(headers[a]) == name && Trim(headers[b]) == name
  }

  /** The error raised when a required column is selected from duplicate columns and stripped. */
  const NoStrAccessorMessage := "'DataFrame' object has no attribute 'str'"

  /** Both cells are present: the row survives `dropna`. */
  predicate Complete(row: Row) {
    row.labelCell.Some? && row.apiCell.Some?
  }

  /** The pairs one row contributes: its stripped label and API name, or nothing after `dropna`. */
  function RowChunk(row: Row): seq<Pair> {
    if Complete(row) then [(Trim(row.labelCell.value), Trim(row.apiCell.value))] else []
  }

  function RowChunks(rows: seq<Row>): (cs: seq<seq<Pair>>)
    ensures |cs| == |rows|
    ensures forall k :: 0 <= k < |rows| ==> cs[k] == RowChunk(rows[k])
  {
    seq(|rows|, k requires 0 <= k < |rows| => RowChunk(rows[k]))
  }

  /** The label/API pairs `zip` yields after `dropna` and stripping, in row order. */
  function ExcelPairs(rows: seq<Row>): seq<Pair> {
    Concat(RowChunks(rows))
  }

  /**
   * Read one workbook: fail when a required column is missing after
   * stripping the headers, or when two headers strip to the same required
   * column; otherwise drop the rows missing either cell,
   * strip both cells and build the dictionary, a later row winning.
   */
  function ReadExcelMapping(sheet: Sheet): Result<map<string, string>, string> {
    if !HasColumn(sheet.headers, "Label") || !HasColumn(sheet.headers, "API_Name") then
      Failure(MissingColumnsMessage)
    else if DuplicateColumn(sheet.headers, "Label") || DuplicateColumn(sheet.headers, "API_Name") then
      Failure(NoStrAccessorMessage)
    else
      Success(FromPairs(ExcelPairs(sheet.rows)))
  }

  /** Every pair of a workbook has a stripped key and a stripped value. */
  lemma ExcelPairsTrimmed(rows: seq<Row>)
    ensures forall p :: p in ExcelPairs(rows) ==> Trim(p.0) == p.0 && Trim(p.1) == p.1
  {
    forall p | p in ExcelPairs(rows) ensures Trim(p.0) == p.0 && Trim(p.1) == p.1 {
      ConcatMember(RowChunks(rows), p);
      var k :| 0 <= k < |rows| && p in RowChunks(rows)[k];
      TrimIdempotent(rows[k].labelCell.value);
      TrimIdempotent(rows[k].apiCell.value);
    }
  }

  /** Keys and values of a workbook mapping are stripped. */
  lemma ExcelMappingTrimmed(sheet: Sheet)
    requires ReadExcelMapping(sheet).Success?
    ensures ValuesTrimmed(ReadExcelMapping(sheet).value)
    ensures forall k :: k in ReadExcelMapping(sheet).value ==> Trim(k) == k
  {
    var ps := ExcelPairs(sheet.rows);
    ExcelPairsTrimmed(sheet.rows);
    FromPairsDomain(ps);
    forall k | k in FromPairs(ps) ensures Trim(k) == k && Trim(FromPairs(ps)[k]) == FromPairs(ps)[k] {
      assert (k, FromPairs(ps)[k]) in ps;
    }
  }

  /** A key is in a workbook mapping exactly when some complete row has it as its stripped label. */
  lemma ExcelMappingKeys(sheet: Sheet, key: string)
    requires ReadExcelMapping(sheet).Success?
    ensures key in ReadExcelMapping(sheet).value <==>
      exists k :: 0 <= k < |sheet.rows| && Complete(sheet.rows[k]) && Trim(sheet.rows[k].labelCell.value) == key
  {
    var rows := sheet.rows;
    var ps := ExcelPairs(rows);
    FromPairsDomain(ps);
    if key in FromPairs(ps) {
      var p := (key, FromPairs(ps)[key]);
      assert p in ps;
      ConcatMember(RowChunks(rows), p);
      var k :| 0 <= k < |rows| && p in RowChunks(rows)[k];
      assert Complete(rows[k]) && Trim(rows[k].labelCell.value) == key;
    }
    if exists k :: 0 <= k < |rows| && Complete(rows[k]) && Trim(rows[k].labelCell.value) == key {
      var k :| 0 <= k < |rows| && Complete(rows[k]) && Trim(rows[k].labelCell.value) == key;
      var p := RowChunk(rows[k])[0];
      ConcatContains(RowChunks(rows), k, p);
    }
  }

  /** A row missing either cell changes nothing. */
  lemma IncompleteRowDropped(headers: seq<string>, before: seq<Row>, row: Row, after: seq<Row>)
    requires !Complete(row)
    ensures ReadExcelMapping(Sheet(headers, before + [row] + after)) == ReadExcelMapping(Sheet(headers, before + after))
  {
    ExcelPairsDrop(before, row, after);
  }

  lemma ExcelPairsDrop(before: seq<Row>, row: Row, after: seq<Row>)
    requires !Complete(row)
    ensures ExcelPairs(before + [row] + after) == ExcelPairs(before + after)
  {
    assert RowChunks(before + [row] + after) == RowChunks(before) + [[]] + RowChunks(after);
    assert RowChunks(before + after) == RowChunks(before) + RowChunks(after);
    ConcatDropEmpty(RowChunks(before), RowChunks(after));
  }

  /**
   * A complete row whose stripped label no later complete row repeats
   * decides that label's API name.
   */
  lemma ExcelLastRowWins(sheet: Sheet, j: nat)
    requires ReadExcelMapping(sheet).Success?
    requires j < |sheet.rows| && Complete(sheet.rows[j])
    requires forall k :: j < k < |sheet.rows| && Complete(sheet.rows[k]) ==>
      Trim(sheet.rows[k].labelCell.value) != Trim(sheet.rows[j].labelCell.value)
    ensures Trim(sheet.rows[j].labelCell.value) in ReadExcelMapping(sheet).value
    ensures ReadExcelMapping(sheet).value[Trim(sheet.rows[j].labelCell.value)] == Trim(sheet.rows[j].apiCell.value)
  {
    var rows := sheet.rows;
    var cs := RowChunks(rows);
    var p := (Trim(rows[j].labelCell.value), Trim(rows[j].apiCell.value));
    assert cs[j] == [p];
    forall i: int, q: Pair | j < i < |cs| && q in cs[i] ensures q.0 != p.0 {
      assert Complete(rows[i]);
    }
    ConcatLastWins(cs, j, p);
  }

  /** A header with surrounding spaces still names its column. */
  lemma PaddedHeaderAccepted(rows: seq<Row>)
    ensures ReadExcelMapping(Sheet([" Label", "API_Name "], rows)).Success?
  {
    assert !IsSpace('L') && !IsSpace('l') && !IsSpace('A') && !IsSpace('e');
    TrimOnePad("Label");
    TrimOnePad("API_Name");
    var h := [" Label", "API_Name "];
    assert h[0] == [' '] + "Label" && h[1] == "API_Name" + [' '];
    TwoHeadersAccepted(h, rows);
  }

  /** Two headers that strip to `Label` and `API_Name` are accepted. */
  lemma TwoHeadersAccepted(h: seq<string>, rows: seq<Row>)
    requires |h| == 2 && Trim(h[0]) == "Label" && Trim(h[1]) == "API_Name"
    ensures ReadExcelMapping(Sheet(h, rows)).Success?
  {
    assert h[0] in h && h[1] in h;
    assert "Label" != "API_Name";
  }

  /** Two headers that strip to `Label` make reading fail. */
  lemma PaddedDuplicateHeaderFails(rows: seq<Row>)
    ensures ReadExcelMapping(Sheet(["Label", "Label ", "API_Name"], rows)) == Failure(NoStrAccessorMessage)
  {
    assert !IsSpace('L') && !IsSpace('l') && !IsSpace('A') && !IsSpace('e');
    TrimOnePad("Label");
    TrimOnePad("API_Name");
    var h := ["Label", "Label ", "API_Name"];
    assert h[1] == "Label" + [' '];
    assert Trim(h[0]) == "Label" && Trim(h[1]) == "Label" && Trim(h[2]) == "API_Name";
  }

  /** A header repeated verbatim is renamed by the reader, so reading succeeds. */
  lemma VerbatimDuplicateHeaderAccepted(rows: seq<Row>)
    ensures ReadExcelMapping(Sheet(["Label", "Label", "API_Name"], rows)).Success?
  {
    assert !IsSpace('L') && !IsSpace('l') && !IsSpace('A') && !IsSpace('e');
    TrimOnePad("Label");
    TrimOnePad("API_Name");
    var h := ["Label", "Label", "API_Name"];
    assert Trim(h[0]) == "Label" && Trim(h[1]) == "Label" && Trim(h[2]) == "API_Name";
    assert h[0] in h && h[2] in h;
    assert "Label" != "API_Name";
  }
}
