# Salesforce picklist reconciliation, modelled in Dafny

Three command-line tools update the picklist values of a Salesforce object's
metadata XML from spreadsheet mappings. This project models and proves the
reconciliation logic they share:

- `update_picklist_api_names.py` reads every `.xlsx` file of a directory into
  a dictionary from the stripped, lower-cased `Label` to the stripped
  `API_Name`. For each picklist `<value>` that has both a `<label>` and a
  `<fullName>`, a mapped label sets the `<fullName>` text when the stripped
  old API name differs. Each such change is recorded. Labels whose value has
  no `<fullName>` are logged as unmapped. One CSV report is written per
  non-empty list; the unmapped report's path is derived by
  `str.replace(".csv", "_unmapped.csv")`.
- `update_picklist_labels.py` reads the same directory the other way round:
  from the stripped `API_Name` to the stripped `Label`. It keys on the raw
  `<fullName>` text and sets the `<label>` text when it differs, creating a
  `<label>` element where there is none. A change report is written when
  anything changed.
- `update_picklist_api_from_excel.py` reads a single workbook. It strips the
  headers and fails with "Excel must have columns: Label, API_Name" when
  either is missing; two different headers that strip to the same required
  name make the later `.str.strip()` fail. A header repeated verbatim does
  not, because the reader renames the repeat with a `.1` suffix first. It then drops rows lacking either cell and maps the
  stripped label, case-sensitively, to the stripped API name; a later row
  wins. It sets `<fullName>` where the stripped label is mapped and the
  stripped old API name differs, and counts the updates. Blank lines are
  dropped from the pretty-printed output.
- All three strip `{uri}` namespace prefixes from element tags.

Modules:

- `Outcomes` holds `Option` and `Result`.
- `PyStr` holds the Python string operations the tools use: `strip`,
  `lower`, `replace`, `splitlines`, `"\n".join`.
- `Pairs` models a dictionary written key by key, where the last write
  wins, and the concatenation of chunks of writes.
- `Sheets` models spreadsheet rows and the mappings built from them.
- `Reports` models the CSV tables and the files on disk after a sequence of
  writes.
- `Picklist` models the picklist value entries.
- `Namespaces` models `remove_namespace`.
- `ApiNames`, `Labels` and `ApiFromExcel` model one tool each.

The document's value entries are an `array<PicklistValue>` updated in
place. Each reconcile loop is a method proved against a specification
function, `Reconciled`, plus the list of changes. The properties are lemmas
about those functions.

## Model

| member | source | states |
|---|---|---|
| Namespaces.Stripped | update_picklist_api_names.py:10-12 | each element with its tag replaced by its local name, in the same order |
| Namespaces.LocalName | update_picklist_api_names.py:11-12 | a tag without `}` is kept; otherwise the result is what follows the first `}` |
| Namespaces.LocalNameFixed | update_picklist_api_names.py:11-12 | a tag is left unchanged exactly when it contains no `}` |
| Namespaces.StrippedIdempotent | update_picklist_api_names.py:10-12 | stripping twice equals stripping once exactly when no local name contains `}` |
| Namespaces.RemoveNamespace | update_picklist_api_names.py:8-13 | every element's tag is replaced by its local name in place; nothing else changes and no element is added, removed or reordered |
| PyStr.Trim | update_picklist_api_names.py:54 | `str.strip()`: the string without its leading and trailing whitespace |
| PyStr.Lower | update_picklist_api_names.py:55 | `str.lower()`: the string with each ASCII capital replaced by its small letter |
| PyStr.ReplaceAll | update_picklist_api_names.py:85 | `str.replace`: every non-overlapping occurrence of the pattern, scanned left to right, replaced |
| PyStr.SplitLines | update_picklist_api_from_excel.py:70 | `str.splitlines()`: the pieces between line breaks, with `\r\n` one break and no empty piece after a final break |
| PyStr.JoinLines | update_picklist_api_from_excel.py:70 | `"\n".join`: the lines with a newline between each two |
| PyStr.TrimEdges | update_picklist_api_names.py:54 | a non-empty stripped string neither starts nor ends with whitespace |
| PyStr.TrimOccurs | update_picklist_api_names.py:54 | the stripped string is a contiguous piece of the original, after its leading whitespace |
| PyStr.TrimEmptyIff | update_picklist_api_from_excel.py:70 | a string strips to empty exactly when every character is whitespace |
| PyStr.TrimIdempotent | update_picklist_api_names.py:58 | stripping twice is stripping once |
| PyStr.LowerSpec | update_picklist_api_names.py:55 | lower-casing keeps the length, leaves no ASCII capital letter and changes nothing else |
| PyStr.LowerIdempotent | update_picklist_api_names.py:38 | lower-casing twice is lower-casing once |
| PyStr.ReplaceAllAbsent | update_picklist_api_names.py:85 | replacing a pattern that does not occur returns the string unchanged |
| PyStr.SplitLinesNoBreak | update_picklist_api_from_excel.py:70 | no line that `splitlines` yields contains a line break |
| PyStr.SplitJoinLines | update_picklist_api_from_excel.py:70 | splitting the newline-join of non-empty, break-free lines gives those lines back |
| Pairs.FromPairsDomain | update_picklist_api_names.py:40 | every written key is in the dictionary, and every entry was written by some pair |
| Pairs.FromPairsLastWins | update_picklist_api_names.py:40 | a key holds the value of its last write |
| Pairs.FromPairsAppend | update_picklist_api_names.py:31-40 | two runs of writes give the first dictionary overridden by the second |
| Pairs.ConcatLastWins | update_picklist_api_from_excel.py:22 | a pair alone in its chunk, whose key no later chunk writes, survives into the dictionary |
| Sheets.RowPair | update_picklist_api_names.py:37-39 | the pair a row writes: under the label-to-API rule, the stripped lower-cased `Label` cell to the stripped `API_Name` cell; under the other rule the reverse, unlowered |
| Sheets.Accepted | update_picklist_api_names.py:32-36 | a file is read when its name ends in `.xlsx` and its unstripped headers include `Label` and `API_Name` |
| Sheets.DirMapping | update_picklist_api_names.py:31-40 | the dictionary written by the pairs of every row of every accepted file, in order, a later write winning |
| Sheets.DirMappingAppend | update_picklist_api_names.py:31-40 | the mapping of two runs of files is the first overridden by the second, so a later file wins |
| Sheets.SkippedFileContributesNothing | update_picklist_api_names.py:32-36 | a file that is not `.xlsx` or lacks `Label` or `API_Name` leaves the mapping as if absent |
| Sheets.LastRowWins | update_picklist_labels.py:38-39 | the last row with a given key in the last file read decides that key's value, whatever earlier files wrote |
| Sheets.DirMappingNormalised | update_picklist_api_names.py:38-39 | every mapped value is stripped, and under the label-to-API rule every key is lower-case |
| Sheets.DirMappingKeys | update_picklist_api_names.py:31-40 | a key is in the directory mapping exactly when some row of an accepted file writes it |
| Sheets.DirMappingApiKeys | update_picklist_labels.py:31-39 | under the API-to-label rule, a key is mapped exactly when it is the stripped `API_Name` cell of some row of an accepted file; case is kept |
| Sheets.BuildDirMapping | update_picklist_api_names.py:30-40 | the loop over files and rows returns exactly the directory mapping |
| Sheets.ReadExcelMapping | update_picklist_api_from_excel.py:14-24 | the missing-columns error, else the `.str` error for two different headers stripping to one required name, else the dictionary of stripped label to stripped API name over complete rows |
| Sheets.ExcelMappingTrimmed | update_picklist_api_from_excel.py:16-22 | every key and value of a workbook's mapping is stripped |
| Sheets.ExcelMappingKeys | update_picklist_api_from_excel.py:19-22 | a key is mapped exactly when some row with both cells has it as its stripped label; case is kept |
| Sheets.PaddedHeaderAccepted | update_picklist_api_from_excel.py:16-17 | headers with surrounding spaces still name the required columns, so reading succeeds |
| Sheets.PaddedDuplicateHeaderFails | update_picklist_api_from_excel.py:16-20 | headers `Label` and `Label ` both strip to `Label`, so reading fails with the `.str` error |
| Sheets.VerbatimDuplicateHeaderAccepted | update_picklist_api_from_excel.py:15-17 | headers `Label`, `Label`, `API_Name` read successfully, because the repeat is renamed `Label.1` before stripping |
| Sheets.IncompleteRowDropped | update_picklist_api_from_excel.py:19 | a row missing either cell does not affect the result |
| Sheets.ExcelLastRowWins | update_picklist_api_from_excel.py:22 | the last complete row with a given stripped label decides its API name |
| Reports.UnmappedPath | update_picklist_api_names.py:85 | the report path with every ".csv" replaced by "_unmapped.csv" |
| Reports.UnmappedPathOfCsv | update_picklist_api_names.py:85 | a report path `stem.csv` without another ".csv" gives the unmapped report `stem_unmapped.csv` |
| Reports.UnmappedPathWithoutCsv | update_picklist_api_names.py:85 | a report path without ".csv" gives the unmapped report the same path |
| Reports.OnDiskLastWriteWins | update_picklist_api_names.py:75-87 | after a sequence of writes, each path holds the table of the last write to it |
| ApiNames.Step | update_picklist_api_names.py:53-61 | a value with both children whose lower-cased stripped label is mapped to a name other than its stripped API name gets that name; any other value is kept |
| ApiNames.StepChange | update_picklist_api_names.py:59-61 | the change record (stripped label, stripped old name, new name) of a rewritten value, and none otherwise |
| ApiNames.StepUnmapped | update_picklist_api_names.py:62-65 | the stripped label of a value with a label and no `<fullName>`, and none otherwise |
| ApiNames.StepShape | update_picklist_api_names.py:53-61 | one turn never touches the label and never adds or removes `<fullName>`; the value changes only when its API name is rewritten to the mapped one |
| ApiNames.StepChangeIff | update_picklist_api_names.py:56-61 | with stripped mapping values, a change is recorded exactly when the value changes |
| ApiNames.StepMatches | update_picklist_api_names.py:56-60 | after its turn, a mapped value's stripped API name is the mapped one |
| ApiNames.StepIdempotent | update_picklist_api_names.py:53-65 | a second turn changes nothing, records no change and logs the same unmapped label |
| ApiNames.OnlyMappedApiNamesChange | update_picklist_api_names.py:53-61 | labels never change; a value changes only if it has both children and its lower-cased stripped label is mapped, and then its `<fullName>` text is the mapped value |
| ApiNames.MappedValuesMatch | update_picklist_api_names.py:56-60 | every mapped value ends with the mapped API name |
| ApiNames.ChangesEmptyIff | update_picklist_api_names.py:59-61 | no change is recorded exactly when no value changed |
| ApiNames.ChangeRecords | update_picklist_api_names.py:59-61 | each recorded change has distinct old and new API names and a new name the mapping gives its label, and comes from a rewritten value with that label |
| ApiNames.UnmappedIff | update_picklist_api_names.py:62-65 | a label is logged as unmapped exactly when some value has that stripped label and no `<fullName>` |
| ApiNames.ReconcileIdempotent | update_picklist_api_names.py:56-61 | a second run with the same mapping changes nothing, records no change and logs the same unmapped labels |
| ApiNames.ReconcileValue | update_picklist_api_names.py:50-65 | one turn of the loop gives the specified new value, change and unmapped label |
| ApiNames.Reconcile | update_picklist_api_names.py:45-65 | the loop leaves the values reconciled in place and returns the changes and unmapped labels in document order |
| ApiNames.ChangeReportRows | update_picklist_api_names.py:53-77 | the change report of a run has the columns Label, Old_API_Name, New_API_Name and one row per rewritten value, in document order, holding its stripped label, stripped old API name and new API name |
| ApiNames.UnmappedReportRows | update_picklist_api_names.py:62-86 | the unmapped report of a run has the single column Unmapped_Labels_No_FullName and one row per value with a label and no `<fullName>`, in document order, holding its stripped label |
| ApiNames.ReportWrites | update_picklist_api_names.py:75-87 | the change report when there are changes, then the unmapped report at the derived path when there are unmapped labels |
| ApiNames.ReportsOnDisk | update_picklist_api_names.py:75-87 | for `stem.csv`, the change report exists exactly when there are changes and the unmapped report exactly when there are unmapped labels; nothing else is written |
| ApiNames.ReportsCollide | update_picklist_api_names.py:83-87 | for a report path without ".csv", the unmapped report overwrites the change report |
| ApiNames.UpdatePicklistApiNames | update_picklist_api_names.py:15-87 | the values are reconciled against the directory mapping, and the reports written are those of the changes and unmapped labels |
| ApiNames.SecondRunChangesNothing | update_picklist_api_names.py:38-61 | rerunning with the same directory changes nothing and records no change |
| Labels.Step | update_picklist_labels.py:51-58 | a value whose `<fullName>` text is mapped to a label other than its own gets that label, a `<label>` being created if absent; any other value is kept |
| Labels.StepChange | update_picklist_labels.py:54-58 | the change record (API name, old label, new label) of a relabelled value, and none otherwise |
| Labels.StepShape | update_picklist_labels.py:51-58 | one turn never touches `<fullName>`; the value changes exactly when it is relabelled, and then its label text is the mapped one |
| Labels.StepMatches | update_picklist_labels.py:51-57 | after its turn, a mapped value's label is the mapped one |
| Labels.OnlyMappedLabelsChange | update_picklist_labels.py:47-58 | `<fullName>` never changes; a value changes only when its raw `<fullName>` text is mapped, and then gets the mapped label |
| Labels.LabelCreatedIff | update_picklist_labels.py:52-57 | a `<label>` is created exactly when there was none, the value is mapped and the mapped label is not empty |
| Labels.MappedLabelsMatch | update_picklist_labels.py:51-57 | every mapped value ends with the mapped label |
| Labels.ChangesEmptyIff | update_picklist_labels.py:54-58 | no change is recorded exactly when no value changed |
| Labels.ChangeRecords | update_picklist_labels.py:54-58 | each recorded change names a mapped API name, its mapped label and a different old label, and comes from a relabelled value with that API name |
| Labels.ReconcileIdempotent | update_picklist_labels.py:51-58 | a second run with the same mapping changes nothing and records no change |
| Labels.ReconcileValue | update_picklist_labels.py:48-58 | one turn of the loop gives the specified new value and change |
| Labels.Reconcile | update_picklist_labels.py:44-58 | the loop leaves the values relabelled in place and returns the changes in document order |
| Labels.ChangeReportRows | update_picklist_labels.py:51-70 | the change report of a run has the columns API_Name, Old_Label, New_Label and one row per relabelled value, in document order, holding its API name, old label (empty for none) and new label |
| Labels.ReportWrites | update_picklist_labels.py:67-73 | the change report when there are changes, and nothing otherwise |
| Labels.ReportOnDisk | update_picklist_labels.py:67-73 | the report exists exactly when there are changes |
| Labels.UpdatePicklistLabels | update_picklist_labels.py:15-73 | the values are relabelled against the directory mapping, and the report written is that of the changes |
| ApiFromExcel.Step | update_picklist_api_from_excel.py:53-63 | a value with both children whose stripped label is mapped to a name other than its stripped API name gets that name; any other value is kept |
| ApiFromExcel.UpdatedCount | update_picklist_api_from_excel.py:52-63 | the number of values the loop updates |
| ApiFromExcel.StepShape | update_picklist_api_from_excel.py:56-63 | one turn never touches the label or adds or removes `<fullName>`; with stripped mapping values, the value changes exactly when it is updated |
| ApiFromExcel.StepMatches | update_picklist_api_from_excel.py:58-62 | after its turn, a mapped value's stripped API name is the mapped one |
| ApiFromExcel.MappedValuesMatch | update_picklist_api_from_excel.py:56-62 | every mapped value ends with the mapped API name |
| ApiFromExcel.OnlyMappedApiNamesChange | update_picklist_api_from_excel.py:53-63 | labels never change; a value changes only when its stripped label is mapped, and then gets the mapped API name |
| ApiFromExcel.UpdatedCountBound | update_picklist_api_from_excel.py:52-63 | the count never exceeds the number of values |
| ApiFromExcel.UpdatedCountZeroIff | update_picklist_api_from_excel.py:52-63 | the count is zero exactly when no value changed |
| ApiFromExcel.UpdatedCountIsChanged | update_picklist_api_from_excel.py:52-63 | the count is the number of values the run changes |
| ApiFromExcel.ReconcileIdempotent | update_picklist_api_from_excel.py:58-63 | a second run with the same mapping changes nothing and counts zero |
| ApiFromExcel.ReconcileValue | update_picklist_api_from_excel.py:54-63 | one turn of the loop gives the specified new value and whether it counted |
| ApiFromExcel.Reconcile | update_picklist_api_from_excel.py:51-63 | the loop leaves the values reconciled in place and returns the number of updates |
| ApiFromExcel.UpdatePicklistApi | update_picklist_api_from_excel.py:33-63 | a missing required column, or two different headers that strip to one, fails with its error before any value changes; otherwise the values are reconciled and the count returned |
| ApiFromExcel.SecondRunChangesNothing | update_picklist_api_from_excel.py:41-63 | rerunning with the same workbook changes nothing and counts zero |
| ApiFromExcel.DropBlankLines | update_picklist_api_from_excel.py:70 | the newline-join of the text's lines that do not strip to empty |
| ApiFromExcel.KeepNonBlankMembers | update_picklist_api_from_excel.py:70 | the filter keeps exactly the non-blank lines |
| ApiFromExcel.KeepNonBlankIdempotent | update_picklist_api_from_excel.py:70 | filtering twice is filtering once |
| ApiFromExcel.DropBlankLinesLines | update_picklist_api_from_excel.py:70 | the output's lines are the input's non-blank lines, in their original order |
| ApiFromExcel.DropBlankLinesNoBlank | update_picklist_api_from_excel.py:70 | no output line is blank and every output line is an input line |
| ApiFromExcel.DropBlankLinesIdempotent | update_picklist_api_from_excel.py:70 | dropping blank lines twice is dropping them once |

## Left out

- File and process I/O is not modelled; the inputs are parameters and the outputs are results. This covers:
  - reading workbooks and listing the directory;
  - backups, including the timestamped backup name, which depends on the clock;
  - writing the XML, the CSVs and the text;
  - argument parsing and log messages.
- The directory listing order is the order of the `files` sequence, and a workbook is its header row and rows.
- XML parsing, serialisation and `minidom` pretty-printing are foreign library code. A document is reduced to:
  - its picklist values, each with its first `<fullName>` and `<label>` child, for reconciliation;
  - a flat array of elements, for namespace stripping.
- The `findall` paths, including the namespace-prefixed path of the directory tools, are not modelled: the values found are given. For the same reason, the Excel tool stripping namespaces before its search (so every `<value>` at any depth is found) is not modelled.
- Labels.Reconcile: the position at which `SubElement` appends a created `<label>` among the value's children is not modelled; only its presence and text are.
- Element identity and aliasing between `find` results are not modelled.
- `str.strip` removes the characters for which Python's `str.isspace` holds, listed out, and `splitlines` breaks at Python's line-break characters. `str.lower` is modelled on ASCII letters only: full Unicode case mapping is left out, so ApiNames keys differ from Python's for non-ASCII capitals.
- Pandas type inference in the directory tools, which read cells without `dtype=str`, is not modelled. Cells are strings, and a missing cell prints as "nan", as `str(NaN)` does. The directory tools check the headers unstripped, and the model keeps that difference.
- Python crash paths are preconditions rather than modelled errors:
  - ApiNames.Reconcile requires every present `<label>` to have text, since `strip` on `None` would raise.
  - Labels.Reconcile requires every value to have a `<fullName>`, since `.text` on a missing element would raise.
  - ApiFromExcel.Reconcile requires label text for values with both children, and `<fullName>` text for mapped ones.
- Namespaces.RemoveNamespace is not composed into the tool pipelines, which take values already found. The tools apply it as a separate pass over all tags.
- ReadExcelMapping: headers are strings. A non-string header, on which `c.strip()` raises, is not modelled.
- Labels.ReconcileIdempotent: holds for the values as the model reads them, where a created `<label>` is the value's label. In the source, `ET.SubElement(val, "label")` creates an unqualified `label`, while the loop finds labels as `sf:label` in the metadata namespace. So a second pass over the same, still namespaced tree would not find the created label: it would append another `<label>` and record the change again.
- ApiNames.SecondRunChangesNothing, Labels.ReconcileIdempotent and ApiFromExcel.SecondRunChangesNothing are about running the reconcile loop again over the reconciled values. They are not about running a tool again on the file it wrote. That file has its namespaces stripped, so the directory tools' namespace-prefixed `findall` would find no value in it at all.
