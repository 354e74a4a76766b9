/**
 * The API-name tool: every Excel file of a directory maps a lower-cased
 * label to an API name; each picklist value whose label is mapped gets that
 * API name as its `<fullName>`, each value with a label but no `<fullName>`
 * is reported as unmapped, and two CSV reports list what happened.
 */
module ApiNames {
  import opened Outcomes
  import opened PyStr
  import opened Pairs
  import opened Picklist
  import opened Sheets
  import opened Reports

  /** One row of the change report: the label as written, the old and the new API name. */
  datatype ApiChange = ApiChange(labelText: string, oldApi: string, newApi: string)

  /** A label element, when present, has text: the tool strips it unconditionally. */
  predicate Readable(v: PicklistValue) {
    v.labelEl.Some? ==> v.labelEl.value.text.Some?
  }

  predicate AllReadable(vs: seq<PicklistValue>) {
    forall i :: 0 <= i < |vs| ==> Readable(vs[i])
  }

  /** `label_el.text.strip()`. */
  function LabelOf(v: PicklistValue): string
    requires v.labelEl.Some? && Readable(v)
  {
    Trim(v.labelEl.value.text.value)
  }

  /** `api_name_el.text.strip() if api_name_el.text else ""`. */
  function OldApi(e: Elem): string {
    if HasText(e) then Trim(e.text.value) else ""
  }

  /** The value has both children and its lower-cased label is a key of `mapping`. */
  predicate Mapped(v: PicklistValue, mapping: map<string, string>) {
    v.labelEl.Some? && v.fullName.Some? && Readable(v) && Lower(LabelOf(v)) in mapping
  }

  /** The API name `mapping` gives a mapped value. */
  function NewApi(v: PicklistValue, mapping: map<string, string>): string
    requires Mapped(v, mapping)
  {
    mapping[Lower(LabelOf(v))]
  }

  /** The value is mapped and its stripped API name differs from the mapped one. */
  predicate Rewritten(v: PicklistValue, mapping: map<string, string>) {
    Mapped(v, mapping) && OldApi(v.fullName.value) != NewApi(v, mapping)
  }

  /** One value after its turn of the loop. */
  function Step(v: PicklistValue, mapping: map<string, string>): PicklistValue {
    if Rewritten(v, mapping) then v.(fullName := Some(Elem(Some(NewApi(v, mapping))))) else v
  }

  /** The change-report rows one value adds. */
  function StepChange(v: PicklistValue, mapping: map<string, string>): seq<ApiChange> {
    if Rewritten(v, mapping) then [ApiChange(LabelOf(v), OldApi(v.fullName.value), NewApi(v, mapping))] else []
  }

  /** The unmapped labels one value adds: its stripped label when it has no `<fullName>`. */
  function StepUnmapped(v: PicklistValue): seq<string> {
    if v.labelEl.Some? && v.fullName.None? && Readable(v) then [LabelOf(v)] else []
  }

  /** The values after the loop. */
  function Reconciled(vs: seq<PicklistValue>, mapping: map<string, string>): (r: seq<PicklistValue>)
    ensures |r| == |vs|
    ensures forall i :: 0 <= i < |vs| ==> r[i] == Step(vs[i], mapping)
  {
    seq(|vs|, i requires 0 <= i < |vs| => Step(vs[i], mapping))
  }

  function ChangeChunks(vs: seq<PicklistValue>, mapping: map<string, string>): (cs: seq<seq<ApiChange>>)
    ensures |cs| == |vs|
    ensures forall i :: 0 <= i < |vs| ==> cs[i] == StepChange(vs[i], mapping)
  {
    seq(|vs|, i requires 0 <= i < |vs| => StepChange(vs[i], mapping))
  }

  /** The `changes` list after the loop. */
  function Changes(vs: seq<PicklistValue>, mapping: map<string, string>): seq<ApiChange> {
    Concat(ChangeChunks(vs, mapping))
  }

  function UnmappedChunks(vs: seq<PicklistValue>): (cs: seq<seq<string>>)
    ensures |cs| == |vs|
    ensures forall i :: 0 <= i < |vs| ==> cs[i] == StepUnmapped(vs[i])
  {
    seq(|vs|, i requires 0 <= i < |vs| => StepUnmapped(vs[i]))
  }

  /** The `unmapped` list after the loop. */
  function Unmapped(vs: seq<PicklistValue>): seq<string> {
    Concat(UnmappedChunks(vs))
  }

  /** The change list, one more value on. */
  lemma ChangesSnoc(vs: seq<PicklistValue>, i: nat, mapping: map<string, string>)
    requires i < |vs|
    ensures Changes(vs[..i + 1], mapping) == Changes(vs[..i], mapping) + StepChange(vs[i], mapping)
  {
    assert ChangeChunks(vs[..i + 1], mapping) == ChangeChunks(vs[..i], mapping) + [StepChange(vs[i], mapping)];
    ConcatSnoc(ChangeChunks(vs[..i], mapping), StepChange(vs[i], mapping));
  }

  /** The unmapped list, one more value on. */
  lemma UnmappedSnoc(vs: seq<PicklistValue>, i: nat)
    requires i < |vs|
    ensures Unmapped(vs[..i + 1]) == Unmapped(vs[..i]) + StepUnmapped(vs[i])
  {
    assert UnmappedChunks(vs[..i + 1]) == UnmappedChunks(vs[..i]) + [StepUnmapped(vs[i])];
    ConcatSnoc(UnmappedChunks(vs[..i]), StepUnmapped(vs[i]));
  }

  /* Properties of one turn. */

  /** A turn leaves the label alone and keeps a `<fullName>` where there was one. */
  lemma StepShape(v: PicklistValue, mapping: map<string, string>)
    ensures Step(v, mapping).labelEl == v.labelEl
    ensures Step(v, mapping).fullName.Some? == v.fullName.Some?
    ensures Step(v, mapping) != v ==> Rewritten(v, mapping)
    ensures Rewritten(v, mapping) ==> Step(v, mapping).fullName == Some(Elem(Some(NewApi(v, mapping))))
  {
  }

  /** With stripped mapping values, a turn records a change exactly when it rewrites the value. */
  lemma StepChangeIff(v: PicklistValue, mapping: map<string, string>)
    requires ValuesTrimmed(mapping)
    ensures StepChange(v, mapping) == [] <==> Step(v, mapping) == v
  {
    if Rewritten(v, mapping) {
      var n := NewApi(v, mapping);
      assert Trim(mapping[Lower(LabelOf(v))]) == n;
      assert OldApi(Elem(Some(n))) == n;
    }
  }

  /** With stripped mapping values, a mapped value's stripped API name is the mapped one after its turn. */
  lemma StepMatches(v: PicklistValue, mapping: map<string, string>)
    requires ValuesTrimmed(mapping) && Mapped(v, mapping)
    ensures Mapped(Step(v, mapping), mapping)
    ensures OldApi(Step(v, mapping).fullName.value) == NewApi(v, mapping)
  {
    var w := Step(v, mapping);
    assert w.labelEl == v.labelEl;
    if Rewritten(v, mapping) {
      var n := NewApi(v, mapping);
      assert Trim(mapping[Lower(LabelOf(v))]) == n;
      assert w.fullName.value == Elem(Some(n));
    }
  }

  /** With stripped mapping values, a second turn changes nothing and records nothing. */
  lemma StepIdempotent(v: PicklistValue, mapping: map<string, string>)
    requires ValuesTrimmed(mapping)
    ensures Step(Step(v, mapping), mapping) == Step(v, mapping)
    ensures StepChange(Step(v, mapping), mapping) == []
    ensures StepUnmapped(Step(v, mapping)) == StepUnmapped(v)
  {
    var w := Step(v, mapping);
    StepShape(v, mapping);
    if Mapped(v, mapping) {
      StepMatches(v, mapping);
      assert LabelOf(w) == LabelOf(v);
      assert !Rewritten(w, mapping);
    } else {
      assert w == v;
    }
  }

  /* Properties of the whole loop. */

  /**
   * Only `<fullName>` children change, only of mapped values, and a changed
   * one holds the API name the mapping gives the value's label.
   */
  lemma OnlyMappedApiNamesChange(vs: seq<PicklistValue>, mapping: map<string, string>, i: nat)
    requires i < |vs|
    ensures Reconciled(vs, mapping)[i].labelEl == vs[i].labelEl
    ensures Reconciled(vs, mapping)[i].fullName.Some? == vs[i].fullName.Some?
    ensures Reconciled(vs, mapping)[i] != vs[i] ==>
      Mapped(vs[i], mapping) && Reconciled(vs, mapping)[i].fullName == Some(Elem(Some(mapping[Lower(LabelOf(vs[i]))])))
  {
    StepShape(vs[i], mapping);
  }

  /**
   * With stripped mapping values, every value whose lower-cased label is
   * mapped ends with the mapped API name (after stripping).
   */
  lemma MappedValuesMatch(vs: seq<PicklistValue>, mapping: map<string, string>, i: nat)
    requires ValuesTrimmed(mapping)
    requires i < |vs| && Mapped(vs[i], mapping)
    ensures Mapped(Reconciled(vs, mapping)[i], mapping)
    ensures OldApi(Reconciled(vs, mapping)[i].fullName.value) == mapping[Lower(LabelOf(vs[i]))]
  {
    StepMatches(vs[i], mapping);
  }

  /** With stripped mapping values, the change list is empty exactly when no value was rewritten. */
  lemma ChangesEmptyIff(vs: seq<PicklistValue>, mapping: map<string, string>)
    requires ValuesTrimmed(mapping)
    ensures Changes(vs, mapping) == [] <==> Reconciled(vs, mapping) == vs
  {
    var r := Reconciled(vs, mapping);
    var cs := ChangeChunks(vs, mapping);
    ConcatEmpty(cs);
    forall i | 0 <= i < |vs| ensures cs[i] == [] <==> r[i] == vs[i] {
      StepChangeIff(vs[i], mapping);
    }
    if r == vs {
      assert forall i :: 0 <= i < |vs| ==> r[i] == vs[i];
    } else {
      var i :| 0 <= i < |vs| && r[i] != vs[i];
    }
  }

  /**
   * Every recorded change holds the label as written, an old API name that
   * differs from the new one, and the new one is what the mapping gives the
   * lower-cased label.
   */
  lemma ChangeRecords(vs: seq<PicklistValue>, mapping: map<string, string>, c: ApiChange)
    requires c in Changes(vs, mapping)
    ensures c.oldApi != c.newApi
    ensures Lower(c.labelText) in mapping && mapping[Lower(c.labelText)] == c.newApi
    ensures exists i :: 0 <= i < |vs| && Rewritten(vs[i], mapping) && LabelOf(vs[i]) == c.labelText
  {
    var cs := ChangeChunks(vs, mapping);
    ConcatMember(cs, c);
    var i :| 0 <= i < |cs| && c in cs[i];
    assert c == ApiChange(LabelOf(vs[i]), OldApi(vs[i].fullName.value), NewApi(vs[i], mapping));
  }

  /**
   * A label is reported as unmapped exactly when some value has that
   * stripped label and no `<fullName>`; the mapping plays no part.
   */
  lemma UnmappedIff(vs: seq<PicklistValue>, s: string)
    ensures s in Unmapped(vs) <==>
      exists i :: 0 <= i < |vs| && vs[i].labelEl.Some? && vs[i].fullName.None? && Readable(vs[i]) && LabelOf(vs[i]) == s
  {
    var cs := UnmappedChunks(vs);
    if s in Unmapped(vs) {
      ConcatMember(cs, s);
      var i :| 0 <= i < |cs| && s in cs[i];
      assert cs[i] == StepUnmapped(vs[i]);
    }
    if exists i :: 0 <= i < |vs| && vs[i].labelEl.Some? && vs[i].fullName.None? && Readable(vs[i]) && LabelOf(vs[i]) == s {
      var i :| 0 <= i < |vs| && vs[i].labelEl.Some? && vs[i].fullName.None? && Readable(vs[i]) && LabelOf(vs[i]) == s;
      assert cs[i] == [s];
      ConcatContains(cs, i, s);
    }
  }

  /**
   * With stripped mapping values, a second run over the result changes
   * nothing, records no change and reports the same unmapped labels.
   */
  lemma ReconcileIdempotent(vs: seq<PicklistValue>, mapping: map<string, string>)
    requires ValuesTrimmed(mapping)
    ensures Reconciled(Reconciled(vs, mapping), mapping) == Reconciled(vs, mapping)
    ensures Changes(Reconciled(vs, mapping), mapping) == []
    ensures Unmapped(Reconciled(vs, mapping)) == Unmapped(vs)
  {
    var r := Reconciled(vs, mapping);
    forall i | 0 <= i < |vs|
      ensures Step(r[i], mapping) == r[i] && StepChange(r[i], mapping) == [] && StepUnmapped(r[i]) == StepUnmapped(vs[i])
    {
      StepIdempotent(vs[i], mapping);
    }
    ConcatEmpty(ChangeChunks(r, mapping));
    assert UnmappedChunks(r) == UnmappedChunks(vs);
  }

  /**
   * One turn of the loop: a value with both children whose lower-cased
   * stripped label is mapped gets the mapped API name when its stripped API
   * name differs, and the change is recorded; a value with a label but no
   * `<fullName>` is recorded as unmapped.
   */
  method ReconcileValue(v: PicklistValue, mapping: map<string, string>)
    returns (w: PicklistValue, change: seq<ApiChange>, unmapped: seq<string>)
    requires Readable(v)
    ensures w == Step(v, mapping) && change == StepChange(v, mapping) && unmapped == StepUnmapped(v)
  {
    w, change, unmapped := v, [], [];
    if v.labelEl.Some? && v.fullName.Some? {
      var labelText := Trim(v.labelEl.value.text.value);
      var key := Lower(labelText);
      if key in mapping {
        var newApi := mapping[key];
        var oldApi := if HasText(v.fullName.value) then Trim(v.fullName.value.text.value) else "";
        if oldApi != newApi {
          w := v.(fullName := Some(Elem(Some(newApi))));
          change := [ApiChange(labelText, oldApi, newApi)];
        }
      }
    } else if v.labelEl.Some? {
      unmapped := [Trim(v.labelEl.value.text.value)];
    }
  }

  /** The loop over the picklist values, updating each in place. */
  method Reconcile(values: array<PicklistValue>, mapping: map<string, string>)
    returns (changes: seq<ApiChange>, unmapped: seq<string>)
    requires AllReadable(values[..])
    modifies values
    ensures values[..] == Reconciled(old(values[..]), mapping)
    ensures changes == Changes(old(values[..]), mapping)
    ensures unmapped == Unmapped(old(values[..]))
  {
    ghost var before := values[..];
    changes, unmapped := [], [];
    var i := 0;
    while i < values.Length
      invariant 0 <= i <= values.Length
      invariant forall k :: 0 <= k < i ==> values[k] == Step(before[k], mapping)
      invariant forall k :: i <= k < values.Length ==> values[k] == before[k]
      invariant changes == Changes(before[..i], mapping)
      invariant unmapped == Unmapped(before[..i])
    {
      var w, change, missing := ReconcileValue(values[i], mapping);
      values[i] := w;
      changes := changes + change;
      unmapped := unmapped + missing;
      ChangesSnoc(before, i, mapping);
      UnmappedSnoc(before, i);
      i := i + 1;
    }
    assert before[..i] == before;
  }

  /* The CSV reports. */

  /** The change report: columns Label, Old_API_Name, New_API_Name, one row per change. */
  function ChangeTable(changes: seq<ApiChange>): Table {
    Table(["Label", "Old_API_Name", "New_API_Name"],
      seq(|changes|, i requires 0 <= i < |changes| => [changes[i].labelText, changes[i].oldApi, changes[i].newApi]))
  }

  /** The unmapped report: the single column Unmapped_Labels_No_FullName, one row per label. */
  function UnmappedTable(unmapped: seq<string>): Table {
    Table(["Unmapped_Labels_No_FullName"], seq(|unmapped|, i requires 0 <= i < |unmapped| => [unmapped[i]]))
  }

  /** The change-report row a value gives when it is rewritten: its stripped label, old and new API name. */
  function ChangeRow(v: PicklistValue, mapping: map<string, string>): seq<seq<string>> {
    if Rewritten(v, mapping) then [[LabelOf(v), OldApi(v.fullName.value), NewApi(v, mapping)]] else []
  }

  /** The change-report rows read off the values directly, in document order. */
  function ChangeRows(vs: seq<PicklistValue>, mapping: map<string, string>): seq<seq<string>> {
    if vs == [] then [] else ChangeRows(vs[..|vs| - 1], mapping) + ChangeRow(vs[|vs| - 1], mapping)
  }

  /** The unmapped-report row a value gives when it has a label and no `<fullName>`. */
  function UnmappedRow(v: PicklistValue): seq<seq<string>> {
    if v.labelEl.Some? && v.fullName.None? && Readable(v) then [[LabelOf(v)]] else []
  }

  /** The unmapped-report rows read off the values directly, in document order. */
  function UnmappedRows(vs: seq<PicklistValue>): seq<seq<string>> {
    if vs == [] then [] else UnmappedRows(vs[..|vs| - 1]) + UnmappedRow(vs[|vs| - 1])
  }

  lemma ChangeRowOfStep(v: PicklistValue, mapping: map<string, string>)
    ensures ChangeTable(StepChange(v, mapping)).rows == ChangeRow(v, mapping)
  {
  }

  lemma UnmappedRowOfStep(v: PicklistValue)
    ensures UnmappedTable(StepUnmapped(v)).rows == UnmappedRow(v)
  {
  }

  lemma ChangeTableAppend(a: seq<ApiChange>, b: seq<ApiChange>)
    ensures ChangeTable(a + b).rows == ChangeTable(a).rows + ChangeTable(b).rows
  {
    assert forall i :: 0 <= i < |a| ==> (a + b)[i] == a[i];
    assert forall i :: 0 <= i < |b| ==> (a + b)[|a| + i] == b[i];
  }

  lemma UnmappedTableAppend(a: seq<string>, b: seq<string>)
    ensures UnmappedTable(a + b).rows == UnmappedTable(a).rows + UnmappedTable(b).rows
  {
    assert forall i :: 0 <= i < |a| ==> (a + b)[i] == a[i];
    assert forall i :: 0 <= i < |b| ==> (a + b)[|a| + i] == b[i];
  }

  /**
   * The change report of a run has the columns Label, Old_API_Name,
   * New_API_Name and one row per rewritten value, in document order.
   */
  lemma {:induction false} ChangeReportRows(vs: seq<PicklistValue>, mapping: map<string, string>)
    ensures ChangeTable(Changes(vs, mapping)).columns == ["Label", "Old_API_Name", "New_API_Name"]
    ensures ChangeTable(Changes(vs, mapping)).rows == ChangeRows(vs, mapping)
  {
    if vs != [] {
      var n := |vs| - 1;
      ChangeReportRows(vs[..n], mapping);
      ChangesSnoc(vs, n, mapping);
      assert vs[..n + 1] == vs;
      ChangeTableAppend(Changes(vs[..n], mapping), StepChange(vs[n], mapping));
      ChangeRowOfStep(vs[n], mapping);
    }
  }

  /**
   * The unmapped report of a run has the single column
   * Unmapped_Labels_No_FullName and one row per value with a label and no
   * `<fullName>`, in document order.
   */
  lemma {:induction false} UnmappedReportRows(vs: seq<PicklistValue>)
    ensures UnmappedTable(Unmapped(vs)).columns == ["Unmapped_Labels_No_FullName"]
    ensures UnmappedTable(Unmapped(vs)).rows == UnmappedRows(vs)
  {
    if vs != [] {
      var n := |vs| - 1;
      UnmappedReportRows(vs[..n]);
      UnmappedSnoc(vs, n);
      assert vs[..n + 1] == vs;
      UnmappedTableAppend(Unmapped(vs[..n]), StepUnmapped(vs[n]));
      UnmappedRowOfStep(vs[n]);
    }
  }

  /**
   * The report writes, in order: the change report at `reportFile` when
   * there are changes, then the unmapped report at the derived path when
   * there are unmapped labels.
   */
  function ReportWrites(changes: seq<ApiChange>, unmapped: seq<string>, reportFile: string): seq<CsvFile> {
    (if changes != [] then [CsvFile(reportFile, ChangeTable(changes))] else [])
    + (if unmapped != [] then [CsvFile(UnmappedPath(reportFile), UnmappedTable(unmapped))] else [])
  }

  /**
   * For a report path `stem + ".csv"` (the stem without ".csv"), each
   * non-empty list ends up in its own file: the changes at the report path,
   * the unmapped labels at `stem + "_unmapped.csv"`.
   */
  lemma ReportsOnDisk(changes: seq<ApiChange>, unmapped: seq<string>, stem: string)
    requires !Contains(stem, ".csv")
    ensures var disk := OnDisk(ReportWrites(changes, unmapped, stem + ".csv"));
      && (stem + ".csv" in disk <==> changes != [])
      && (changes != [] ==> disk[stem + ".csv"] == ChangeTable(changes))
      && (stem + "_unmapped.csv" in disk <==> unmapped != [])
      && (unmapped != [] ==> disk[stem + "_unmapped.csv"] == UnmappedTable(unmapped))
      && disk.Keys <= {stem + ".csv", stem + "_unmapped.csv"}
  {
    var csv, other := stem + ".csv", stem + "_unmapped.csv";
    assert csv != other by { assert |csv| < |other|; }
    UnmappedPathOfCsv(stem);
    var c, u := CsvFile(csv, ChangeTable(changes)), CsvFile(other, UnmappedTable(unmapped));
    var writes := ReportWrites(changes, unmapped, csv);
    if changes != [] && unmapped != [] {
      assert writes == [c, u];
      OnDiskTwo(c, u);
    } else if changes != [] {
      assert writes == [c];
      OnDiskOne(c);
    } else if unmapped != [] {
      assert writes == [u];
      OnDiskOne(u);
    } else {
      assert writes == [];
    }
  }

  /**
   * For a report path without ".csv" both reports go to that same path, so
   * when there are changes and unmapped labels only the unmapped report
   * survives.
   */
  lemma ReportsCollide(changes: seq<ApiChange>, unmapped: seq<string>, reportFile: string)
    requires !Contains(reportFile, ".csv") && changes != [] && unmapped != []
    ensures OnDisk(ReportWrites(changes, unmapped, reportFile)) == map[reportFile := UnmappedTable(unmapped)]
  {
    UnmappedPathWithoutCsv(reportFile);
    var c, u := CsvFile(reportFile, ChangeTable(changes)), CsvFile(reportFile, UnmappedTable(unmapped));
    assert ReportWrites(changes, unmapped, reportFile) == [c, u];
    OnDiskTwo(c, u);
  }

  /**
   * The whole tool: build the mapping from the directory, reconcile the
   * picklist values in place, then write the reports.
   */
  method UpdatePicklistApiNames(values: array<PicklistValue>, files: seq<SheetFile>, reportFile: string)
    returns (written: seq<CsvFile>)
    requires AllReadable(values[..])
    modifies values
    ensures values[..] == Reconciled(old(values[..]), DirMapping(files, LowerLabelToApi))
    ensures written == ReportWrites(
      Changes(old(values[..]), DirMapping(files, LowerLabelToApi)), Unmapped(old(values[..])), reportFile)
  {
    var mapping := BuildDirMapping(files, LowerLabelToApi);
    var changes, unmapped := Reconcile(values, mapping);
    written := [];
    if changes != [] {
      written := written + [CsvFile(reportFile, ChangeTable(changes))];
    }
    if unmapped != [] {
      written := written + [CsvFile(UnmappedPath(reportFile), UnmappedTable(unmapped))];
    }
  }

  /**
   * Running the tool a second time with the same directory changes nothing
   * and writes no change report.
   */
  lemma SecondRunChangesNothing(vs: seq<PicklistValue>, files: seq<SheetFile>)
    ensures var m := DirMapping(files, LowerLabelToApi);
      Reconciled(Reconciled(vs, m), m) == Reconciled(vs, m) && Changes(Reconciled(vs, m), m) == []
  {
    DirMappingNormalised(files, LowerLabelToApi);
    ReconcileIdempotent(vs, DirMapping(files, LowerLabelToApi));
  }
}
