/**
 * The label tool: every Excel file of a directory maps an API name to a
 * label; each picklist value whose `<fullName>` text is mapped gets that
 * label, a `<label>` child being created when it has none, and a CSV report
 * lists what changed.
 */
module Labels {
  import opened Outcomes
  import opened Pairs
  import opened Picklist
  import opened Sheets
  import opened Reports

  /** One row of the change report: the API name, the old label (`None` for an element without text) and the new one. */
  datatype LabelChange = LabelChange(apiName: string, oldLabel: Option<string>, newLabel: string)

  /** Every value has a `<fullName>` child: the tool reads its text unconditionally. */
  predicate AllHaveFullName(vs: seq<PicklistValue>) {
    forall i :: 0 <= i < |vs| ==> vs[i].fullName.Some?
  }

  /** The `<fullName>` text is a key of `mapping`; a missing text never is. */
  predicate Mapped(v: PicklistValue, mapping: map<string, string>) {
    v.fullName.Some? && v.fullName.value.text.Some? && v.fullName.value.text.value in mapping
  }

  /** The label `mapping` gives a mapped value. */
  function NewLabel(v: PicklistValue, mapping: map<string, string>): string
    requires Mapped(v, mapping)
  {
    mapping[v.fullName.value.text.value]
  }

  /** `label_el.text if label_el is not None else ""`: `None` for a label element without text. */
  function OldLabel(v: PicklistValue): Option<string> {
    if v.labelEl.None? then Some("") else v.labelEl.value.text
  }

  /** The value is mapped and its old label is not the mapped one. */
  predicate Relabelled(v: PicklistValue, mapping: map<string, string>) {
    Mapped(v, mapping) && OldLabel(v) != Some(NewLabel(v, mapping))
  }

  /** One value after its turn of the loop: the label set, or created and set. */
  function Step(v: PicklistValue, mapping: map<string, string>): PicklistValue {
    if Relabelled(v, mapping) then v.(labelEl := Some(Elem(Some(NewLabel(v, mapping))))) else v
  }

  /** The change-report rows one value adds. */
  function StepChange(v: PicklistValue, mapping: map<string, string>): seq<LabelChange> {
    if Relabelled(v, mapping) then [LabelChange(v.fullName.value.text.value, OldLabel(v), NewLabel(v, mapping))] else []
  }

  /** The values after the loop. */
  function Reconciled(vs: seq<PicklistValue>, mapping: map<string, string>): (r: seq<PicklistValue>)
    ensures |r| == |vs|
    ensures forall i :: 0 <= i < |vs| ==> r[i] == Step(vs[i], mapping)
  {
    seq(|vs|, i requires 0 <= i < |vs| => Step(vs[i], mapping))
  }

  function ChangeChunks(vs: seq<PicklistValue>, mapping: map<string, string>): (cs: seq<seq<LabelChange>>)
    ensures |cs| == |vs|
    ensures forall i :: 0 <= i < |vs| ==> cs[i] == StepChange(vs[i], mapping)
  {
    seq(|vs|, i requires 0 <= i < |vs| => StepChange(vs[i], mapping))
  }

  /** The `changes` list after the loop. */
  function Changes(vs: seq<PicklistValue>, mapping: map<string, string>): seq<LabelChange> {
    Concat(ChangeChunks(vs, mapping))
  }

  /** The change list, one more value on. */
  lemma ChangesSnoc(vs: seq<PicklistValue>, i: nat, mapping: map<string, string>)
    requires i < |vs|
    ensures Changes(vs[..i + 1], mapping) == Changes(vs[..i], mapping) + StepChange(vs[i], mapping)
  {
    assert ChangeChunks(vs[..i + 1], mapping) == ChangeChunks(vs[..i], mapping) + [StepChange(vs[i], mapping)];
    ConcatSnoc(ChangeChunks(vs[..i], mapping), StepChange(vs[i], mapping));
  }

  /* Properties of one turn. */

  /** A turn never touches `<fullName>`, and a relabelled value carries the mapped label. */
  lemma StepShape(v: PicklistValue, mapping: map<string, string>)
    ensures Step(v, mapping).fullName == v.fullName
    ensures Step(v, mapping) != v <==> Relabelled(v, mapping)
    ensures Relabelled(v, mapping) ==> Step(v, mapping).labelEl == Some(Elem(Some(NewLabel(v, mapping))))
  {
    if Relabelled(v, mapping) {
      assert OldLabel(Step(v, mapping)) == Some(NewLabel(v, mapping));
    }
  }

  /** After its turn a mapped value's label reads as the mapped one. */
  lemma StepMatches(v: PicklistValue, mapping: map<string, string>)
    requires Mapped(v, mapping)
    ensures Mapped(Step(v, mapping), mapping)
    ensures OldLabel(Step(v, mapping)) == Some(NewLabel(v, mapping))
  {
  }

  /* Properties of the whole loop. */

  /**
   * `<fullName>` never changes; a label changes only for a mapped value,
   * and then to the label the mapping gives its API name.
   */
  lemma OnlyMappedLabelsChange(vs: seq<PicklistValue>, mapping: map<string, string>, i: nat)
    requires i < |vs|
    ensures Reconciled(vs, mapping)[i].fullName == vs[i].fullName
    ensures Reconciled(vs, mapping)[i] != vs[i] ==>
      Mapped(vs[i], mapping) && Reconciled(vs, mapping)[i].labelEl == Some(Elem(Some(mapping[vs[i].fullName.value.text.value])))
  {
    StepShape(vs[i], mapping);
  }

  /**
   * A `<label>` child is created exactly for a mapped value without one
   * whose mapped label is not empty.
   */
  lemma LabelCreatedIff(vs: seq<PicklistValue>, mapping: map<string, string>, i: nat)
    requires i < |vs|
    ensures vs[i].labelEl.None? && Reconciled(vs, mapping)[i].labelEl.Some? <==>
      vs[i].labelEl.None? && Mapped(vs[i], mapping) && mapping[vs[i].fullName.value.text.value] != ""
  {
    StepShape(vs[i], mapping);
  }

  /** After the loop every mapped value's label reads as the mapped one. */
  lemma MappedLabelsMatch(vs: seq<PicklistValue>, mapping: map<string, string>, i: nat)
    requires i < |vs| && Mapped(vs[i], mapping)
    ensures OldLabel(Reconciled(vs, mapping)[i]) == Some(mapping[vs[i].fullName.value.text.value])
  {
    StepMatches(vs[i], mapping);
  }

  /** The change list is empty exactly when no value was relabelled. */
  lemma ChangesEmptyIff(vs: seq<PicklistValue>, mapping: map<string, string>)
    ensures Changes(vs, mapping) == [] <==> Reconciled(vs, mapping) == vs
  {
    var r := Reconciled(vs, mapping);
    var cs := ChangeChunks(vs, mapping);
    ConcatEmpty(cs);
    forall i | 0 <= i < |vs| ensures cs[i] == [] <==> r[i] == vs[i] {
      StepShape(vs[i], mapping);
    }
    if r == vs {
      assert forall i :: 0 <= i < |vs| ==> r[i] == vs[i];
    } else {
      var i :| 0 <= i < |vs| && r[i] != vs[i];
    }
  }

  /**
   * Every recorded change holds a mapped API name, the label the mapping
   * gives it and an old label that differs from it.
   */
  lemma ChangeRecords(vs: seq<PicklistValue>, mapping: map<string, string>, c: LabelChange)
    requires c in Changes(vs, mapping)
    ensures c.apiName in mapping && mapping[c.apiName] == c.newLabel
    ensures c.oldLabel != Some(c.newLabel)
    ensures exists i :: 0 <= i < |vs| && Relabelled(vs[i], mapping) && vs[i].fullName.value.text == Some(c.apiName)
  {
    var cs := ChangeChunks(vs, mapping);
    ConcatMember(cs, c);
    var i :| 0 <= i < |cs| && c in cs[i];
    assert c == LabelChange(vs[i].fullName.value.text.value, OldLabel(vs[i]), NewLabel(vs[i], mapping));
  }

  /** A second run over the result changes nothing and records no change. */
  lemma ReconcileIdempotent(vs: seq<PicklistValue>, mapping: map<string, string>)
    ensures Reconciled(Reconciled(vs, mapping), mapping) == Reconciled(vs, mapping)
    ensures Changes(Reconciled(vs, mapping), mapping) == []
  {
    var r := Reconciled(vs, mapping);
    forall i | 0 <= i < |vs| ensures Step(r[i], mapping) == r[i] && StepChange(r[i], mapping) == [] {
      StepShape(vs[i], mapping);
      if Mapped(vs[i], mapping) {
        StepMatches(vs[i], mapping);
      }
    }
    ConcatEmpty(ChangeChunks(r, mapping));
  }

  /**
   * One turn of the loop: a value whose `<fullName>` text is mapped gets
   * the mapped label when its old label differs, the `<label>` child being
   * created when missing, and the change is recorded.
   */
  method ReconcileValue(v: PicklistValue, mapping: map<string, string>)
    returns (w: PicklistValue, change: seq<LabelChange>)
    requires v.fullName.Some?
    ensures w == Step(v, mapping) && change == StepChange(v, mapping)
  {
    w, change := v, [];
    var apiName := v.fullName.value.text;
    if apiName.Some? && apiName.value in mapping {
      var oldLabel := if v.labelEl.Some? then v.labelEl.value.text else Some("");
      var newLabel := mapping[apiName.value];
      if oldLabel != Some(newLabel) {
        w := v.(labelEl := Some(Elem(Some(newLabel))));
        change := [LabelChange(apiName.value, oldLabel, newLabel)];
      }
    }
  }

  /** The loop over the picklist values, updating each in place. */
  method Reconcile(values: array<PicklistValue>, mapping: map<string, string>)
    returns (changes: seq<LabelChange>)
    requires AllHaveFullName(values[..])
    modifies values
    ensures values[..] == Reconciled(old(values[..]), mapping)
    ensures changes == Changes(old(values[..]), mapping)
  {
    ghost var before := values[..];
    changes := [];
    var i := 0;
    while i < values.Length
      invariant 0 <= i <= values.Length
      invariant forall k :: 0 <= k < i ==> values[k] == Step(before[k], mapping)
      invariant forall k :: i <= k < values.Length ==> values[k] == before[k]
      invariant changes == Changes(before[..i], mapping)
    {
      var w, change := ReconcileValue(values[i], mapping);
      values[i] := w;
      changes := changes + change;
      ChangesSnoc(before, i, mapping);
      i := i + 1;
    }
    assert before[..i] == before;
  }

  /* The CSV report. */

  /** `None` is written as an empty cell. */
  function CellOf(s: Option<string>): string {
    match s
    case Some(t) => t
    case None => ""
  }

  /** The change report: columns API_Name, Old_Label, New_Label, one row per change. */
  function ChangeTable(changes: seq<LabelChange>): Table {
    Table(["API_Name", "Old_Label", "New_Label"],
      seq(|changes|, i requires 0 <= i < |changes| => [changes[i].apiName, CellOf(changes[i].oldLabel), changes[i].newLabel]))
  }

  /** The change-report row a value gives when it is relabelled: its API name, old label (empty for none) and new label. */
  function ChangeRow(v: PicklistValue, mapping: map<string, string>): seq<seq<string>> {
    if Relabelled(v, mapping) then [[v.fullName.value.text.value, CellOf(OldLabel(v)), NewLabel(v, mapping)]] else []
  }

  /** The change-report rows read off the values directly, in document order. */
  function ChangeRows(vs: seq<PicklistValue>, mapping: map<string, string>): seq<seq<string>> {
    if vs == [] then [] else ChangeRows(vs[..|vs| - 1], mapping) + ChangeRow(vs[|vs| - 1], mapping)
  }

  lemma ChangeRowOfStep(v: PicklistValue, mapping: map<string, string>)
    ensures ChangeTable(StepChange(v, mapping)).rows == ChangeRow(v, mapping)
  {
  }

  lemma ChangeTableAppend(a: seq<LabelChange>, b: seq<LabelChange>)
    ensures ChangeTable(a + b).rows == ChangeTable(a).rows + ChangeTable(b).rows
  {
    assert forall i :: 0 <= i < |a| ==> (a + b)[i] == a[i];
    assert forall i :: 0 <= i < |b| ==> (a + b)[|a| + i] == b[i];
  }

  /**
   * The change report of a run has the columns API_Name, Old_Label,
   * New_Label and one row per relabelled value, in document order.
   */
  lemma {:induction false} ChangeReportRows(vs: seq<PicklistValue>, mapping: map<string, string>)
    ensures ChangeTable(Changes(vs, mapping)).columns == ["API_Name", "Old_Label", "New_Label"]
    ensures ChangeTable(Changes(vs, mapping)).rows == ChangeRows(vs, mapping)
  {
    if vs != [] {
      var n := |vs| - 1;
      ChangeReportRows(vs[..n], mapping);
      ChangesSnoc(vs, n, mapping);
      assert vs[..n + 1] == vs;
      ChangeTableAppend(Changes(vs[..n], mapping), StepChange(vs[n], mapping));
      ChangeRowOfStep(vs[n], mapping);
    }
  }

  /** The report writes: the change report at `reportFile`, only when there are changes. */
  function ReportWrites(changes: seq<LabelChange>, reportFile: string): seq<CsvFile> {
    if changes != [] then [CsvFile(reportFile, ChangeTable(changes))] else []
  }

  /** A report file exists exactly when a label changed, and then lists the changes. */
  lemma ReportOnDisk(changes: seq<LabelChange>, reportFile: string)
    ensures OnDisk(ReportWrites(changes, reportFile))
      == if changes != [] then map[reportFile := ChangeTable(changes)] else map[]
  {
    if changes != [] {
      OnDiskOne(CsvFile(reportFile, ChangeTable(changes)));
    }
  }

  /**
   * The whole tool: build the mapping from the directory, reconcile the
   * picklist values in place, then write the report.
   */
  method UpdatePicklistLabels(values: array<PicklistValue>, files: seq<SheetFile>, reportFile: string)
    returns (written: seq<CsvFile>)
    requires AllHaveFullName(values[..])
    modifies values
    ensures values[..] == Reconciled(old(values[..]), DirMapping(files, ApiToLabel))
    ensures written == ReportWrites(Changes(old(values[..]), DirMapping(files, ApiToLabel)), reportFile)
  {
    var mapping := BuildDirMapping(files, ApiToLabel);
    var changes := Reconcile(values, mapping);
    written := [];
    if changes != [] {
      written := [CsvFile(reportFile, ChangeTable(changes))];
    }
  }
}
