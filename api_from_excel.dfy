/**
 * The Excel-driven API-name tool: one workbook maps a stripped label to an
 * API name; each picklist value whose stripped label is mapped gets that API
 * name as its `<fullName>`, the updates are counted, and the pretty-printed
 * output loses its blank lines.
 */
module ApiFromExcel {
  import opened Outcomes
  import opened PyStr
  import opened Picklist
  import opened Sheets

  /**
   * What the loop reads unconditionally is there: for a value with both
   * children the label text, and the `<fullName>` text when the stripped
   * label is mapped.
   */
  predicate Readable(v: PicklistValue, mapping: map<string, string>) {
    v.labelEl.Some? && v.fullName.Some? ==>
      v.labelEl.value.text.Some?
      && (Trim(v.labelEl.value.text.value) in mapping ==> v.fullName.value.text.Some?)
  }

  predicate AllReadable(vs: seq<PicklistValue>, mapping: map<string, string>) {
    forall i :: 0 <= i < |vs| ==> Readable(vs[i], mapping)
  }

  /** The value has both children with text and its stripped label is a key of `mapping`. */
  predicate Mapped(v: PicklistValue, mapping: map<string, string>) {
    && v.labelEl.Some? && v.fullName.Some?
    && v.labelEl.value.text.Some? && v.fullName.value.text.Some?
    && Trim(v.labelEl.value.text.value) in mapping
  }

  /** The API name `mapping` gives a mapped value. */
  function NewApi(v: PicklistValue, mapping: map<string, string>): string
    requires Mapped(v, mapping)
  {
    mapping[Trim(v.labelEl.value.text.value)]
  }

  /** `fullName_el.text.strip()`. */
  function OldApi(v: PicklistValue): string
    requires v.fullName.Some? && v.fullName.value.text.Some?
  {
    Trim(v.fullName.value.text.value)
  }

  /** The value is mapped and its stripped API name differs from the mapped one. */
  predicate Updated(v: PicklistValue, mapping: map<string, string>) {
    Mapped(v, mapping) && OldApi(v) != NewApi(v, mapping)
  }

  /** One value after its turn of the loop. */
  function Step(v: PicklistValue, mapping: map<string, string>): PicklistValue {
    if Updated(v, mapping) then v.(fullName := Some(Elem(Some(NewApi(v, mapping))))) else v
  }

  /** The values after the loop. */
  function Reconciled(vs: seq<PicklistValue>, mapping: map<string, string>): (r: seq<PicklistValue>)
    ensures |r| == |vs|
    ensures forall i :: 0 <= i < |vs| ==> r[i] == Step(vs[i], mapping)
  {
    seq(|vs|, i requires 0 <= i < |vs| => Step(vs[i], mapping))
  }

  /** `updated_count` after the loop: the number of updated values. */
  function UpdatedCount(vs: seq<PicklistValue>, mapping: map<string, string>): nat {
    if vs == [] then 0
    else UpdatedCount(vs[..|vs| - 1], mapping) + (if Updated(vs[|vs| - 1], mapping) then 1 else 0)
  }

  /** The count, one more value on. */
  lemma UpdatedCountSnoc(vs: seq<PicklistValue>, i: nat, mapping: map<string, string>)
    requires i < |vs|
    ensures UpdatedCount(vs[..i + 1], mapping) == UpdatedCount(vs[..i], mapping) + (if Updated(vs[i], mapping) then 1 else 0)
  {
    assert vs[..i + 1][..i] == vs[..i];
  }

  /* Properties of one turn. */

  /** A turn leaves the label alone and changes the value exactly when it updates it. */
  lemma StepShape(v: PicklistValue, mapping: map<string, string>)
    requires ValuesTrimmed(mapping)
    ensures Step(v, mapping).labelEl == v.labelEl
    ensures Step(v, mapping).fullName.Some? == v.fullName.Some?
    ensures Step(v, mapping) != v <==> Updated(v, mapping)
  {
    if Updated(v, mapping) {
      var n := NewApi(v, mapping);
      assert Trim(mapping[Trim(v.labelEl.value.text.value)]) == n;
      assert Trim(n) == n;
    }
  }

  /** With stripped mapping values, a mapped value's stripped API name is the mapped one after its turn. */
  lemma StepMatches(v: PicklistValue, mapping: map<string, string>)
    requires ValuesTrimmed(mapping) && Mapped(v, mapping)
    ensures Mapped(Step(v, mapping), mapping)
    ensures OldApi(Step(v, mapping)) == NewApi(v, mapping)
  {
    if Updated(v, mapping) {
      var n := NewApi(v, mapping);
      assert Trim(mapping[Trim(v.labelEl.value.text.value)]) == n;
    }
  }

  /* Properties of the whole loop. */

  /** Every mapped value ends with the mapped API name (after stripping). */
  lemma MappedValuesMatch(vs: seq<PicklistValue>, mapping: map<string, string>, i: nat)
    requires ValuesTrimmed(mapping)
    requires i < |vs| && Mapped(vs[i], mapping)
    ensures Mapped(Reconciled(vs, mapping)[i], mapping)
    ensures OldApi(Reconciled(vs, mapping)[i]) == mapping[Trim(vs[i].labelEl.value.text.value)]
  {
    StepMatches(vs[i], mapping);
  }

  /** Labels never change, and a value changes only when its stripped label is mapped. */
  lemma OnlyMappedApiNamesChange(vs: seq<PicklistValue>, mapping: map<string, string>, i: nat)
    requires ValuesTrimmed(mapping)
    requires i < |vs|
    ensures Reconciled(vs, mapping)[i].labelEl == vs[i].labelEl
    ensures Reconciled(vs, mapping)[i] != vs[i] ==>
      Mapped(vs[i], mapping) && Reconciled(vs, mapping)[i].fullName == Some(Elem(Some(mapping[Trim(vs[i].labelEl.value.text.value)])))
  {
    StepShape(vs[i], mapping);
  }

  /** The count never exceeds the number of values. */
  lemma {:induction false} UpdatedCountBound(vs: seq<PicklistValue>, mapping: map<string, string>)
    ensures UpdatedCount(vs, mapping) <= |vs|
  {
    if vs != [] {
      UpdatedCountBound(vs[..|vs| - 1], mapping);
    }
  }

  /** With stripped mapping values, the count is zero exactly when no value changed. */
  lemma {:induction false} UpdatedCountZeroIff(vs: seq<PicklistValue>, mapping: map<string, string>)
    requires ValuesTrimmed(mapping)
    ensures UpdatedCount(vs, mapping) == 0 <==> Reconciled(vs, mapping) == vs
  {
    if vs != [] {
      var init, last := vs[..|vs| - 1], vs[|vs| - 1];
      UpdatedCountZeroIff(init, mapping);
      StepShape(last, mapping);
      assert Reconciled(vs, mapping) == Reconciled(init, mapping) + [Step(last, mapping)];
      assert vs == init + [last];
    }
  }

  /** The positions of the values a run changes. */
  function ChangedIndices(vs: seq<PicklistValue>, mapping: map<string, string>): set<nat> {
    set i: nat | i < |vs| && Step(vs[i], mapping) != vs[i]
  }

  /** The changed positions, one more value on. */
  lemma ChangedIndicesSnoc(vs: seq<PicklistValue>, mapping: map<string, string>)
    requires vs != []
    ensures var n := |vs| - 1;
      ChangedIndices(vs, mapping)
      == ChangedIndices(vs[..n], mapping) + (if Step(vs[n], mapping) != vs[n] then {n} else {})
  {
    var n := |vs| - 1;
    assert forall i :: 0 <= i < n ==> vs[..n][i] == vs[i];
  }

  /** With stripped mapping values, the count is the number of values the run changes. */
  lemma {:induction false} UpdatedCountIsChanged(vs: seq<PicklistValue>, mapping: map<string, string>)
    requires ValuesTrimmed(mapping)
    ensures UpdatedCount(vs, mapping) == |ChangedIndices(vs, mapping)|
  {
    if vs == [] {
      assert ChangedIndices(vs, mapping) == {};
    } else {
      var n := |vs| - 1;
      UpdatedCountIsChanged(vs[..n], mapping);
      StepShape(vs[n], mapping);
      ChangedIndicesSnoc(vs, mapping);
      assert n !in ChangedIndices(vs[..n], mapping);
    }
  }

  /** With stripped mapping values, a second run over the result changes nothing and counts zero. */
  lemma ReconcileIdempotent(vs: seq<PicklistValue>, mapping: map<string, string>)
    requires ValuesTrimmed(mapping)
    ensures Reconciled(Reconciled(vs, mapping), mapping) == Reconciled(vs, mapping)
    ensures UpdatedCount(Reconciled(vs, mapping), mapping) == 0
  {
    var r := Reconciled(vs, mapping);
    forall i | 0 <= i < |vs| ensures Step(r[i], mapping) == r[i] {
      StepShape(vs[i], mapping);
      if Mapped(vs[i], mapping) {
        StepMatches(vs[i], mapping);
        StepShape(r[i], mapping);
      }
    }
    UpdatedCountZeroIff(r, mapping);
  }

  /**
   * One turn of the loop: a value with both children whose stripped label
   * is mapped gets the mapped API name when its stripped API name differs.
   */
  method ReconcileValue(v: PicklistValue, mapping: map<string, string>) returns (w: PicklistValue, updated: bool)
    requires Readable(v, mapping)
    ensures w == Step(v, mapping) && updated == Updated(v, mapping)
  {
    w, updated := v, false;
    if v.labelEl.Some? && v.fullName.Some? {
      var labelText := Trim(v.labelEl.value.text.value);
      if labelText in mapping {
        var oldApi := Trim(v.fullName.value.text.value);
        var newApi := mapping[labelText];
        if oldApi != newApi {
          w := v.(fullName := Some(Elem(Some(newApi))));
          updated := true;
        }
      }
    }
  }

  /** The loop over the picklist values, updating each in place and counting the updates. */
  method Reconcile(values: array<PicklistValue>, mapping: map<string, string>) returns (updatedCount: nat)
    requires AllReadable(values[..], mapping)
    modifies values
    ensures values[..] == Reconciled(old(values[..]), mapping)
    ensures updatedCount == UpdatedCount(old(values[..]), mapping)
  {
    ghost var before := values[..];
    updatedCount := 0;
    var i := 0;
    while i < values.Length
      invariant 0 <= i <= values.Length
      invariant forall k :: 0 <= k < i ==> values[k] == Step(before[k], mapping)
      invariant forall k :: i <= k < values.Length ==> values[k] == before[k]
      invariant updatedCount == UpdatedCount(before[..i], mapping)
    {
      var w, updated := ReconcileValue(values[i], mapping);
      values[i] := w;
      if updated {
        updatedCount := updatedCount + 1;
      }
      UpdatedCountSnoc(before, i, mapping);
      i := i + 1;
    }
    assert before[..i] == before;
  }

  /**
   * The whole tool: read the workbook, failing before anything changes when
   * a column is missing; otherwise reconcile the picklist values in place
   * and give the number of updates.
   */
  method UpdatePicklistApi(values: array<PicklistValue>, sheet: Sheet) returns (r: Result<nat, string>)
    requires ReadExcelMapping(sheet).Success? ==> AllReadable(values[..], ReadExcelMapping(sheet).value)
    modifies values
    ensures ReadExcelMapping(sheet).Failure? ==>
      r == Failure(ReadExcelMapping(sheet).error) && values[..] == old(values[..])
    ensures ReadExcelMapping(sheet).Success? ==>
      && values[..] == Reconciled(old(values[..]), ReadExcelMapping(sheet).value)
      && r == Success(UpdatedCount(old(values[..]), ReadExcelMapping(sheet).value))
  {
    var mapping := ReadExcelMapping(sheet);
    if mapping.Failure? {
      return Failure(mapping.error);
    }
    var count := Reconcile(values, mapping.value);
    r := Success(count);
  }

  /** Running the tool a second time with the same workbook changes nothing and counts zero. */
  lemma SecondRunChangesNothing(vs: seq<PicklistValue>, sheet: Sheet)
    requires ReadExcelMapping(sheet).Success?
    ensures var m := ReadExcelMapping(sheet).value;
      Reconciled(Reconciled(vs, m), m) == Reconciled(vs, m) && UpdatedCount(Reconciled(vs, m), m) == 0
  {
    ExcelMappingTrimmed(sheet);
    ReconcileIdempotent(vs, ReadExcelMapping(sheet).value);
  }

  /* Blank lines of the pretty-printed output. */

  /** `not line.strip()`. */
  predicate Blank(line: string) {
    Trim(line) == []
  }

  /** `[line for line in lines if line.strip()]`. */
  function KeepNonBlank(lines: seq<string>): seq<string> {
    if lines == [] then []
    else (if Blank(lines[0]) then [] else [lines[0]]) + KeepNonBlank(lines[1..])
  }

  /** `"\n".join(line for line in text.splitlines() if line.strip())`. */
  function DropBlankLines(text: string): string {
    JoinLines(KeepNonBlank(SplitLines(text)))
  }

  /** The filter keeps exactly the non-blank lines. */
  lemma {:induction false} KeepNonBlankMembers(lines: seq<string>)
    ensures forall l :: l in KeepNonBlank(lines) <==> l in lines && !Blank(l)
  {
    if lines != [] {
      KeepNonBlankMembers(lines[1..]);
      assert lines == [lines[0]] + lines[1..];
    }
  }

  /** Filtering twice is filtering once. */
  lemma {:induction false} KeepNonBlankIdempotent(lines: seq<string>)
    ensures KeepNonBlank(KeepNonBlank(lines)) == KeepNonBlank(lines)
  {
    if lines != [] {
      KeepNonBlankIdempotent(lines[1..]);
      var rest := KeepNonBlank(lines[1..]);
      if !Blank(lines[0]) {
        var kept := [lines[0]] + rest;
        assert KeepNonBlank(lines) == kept;
        assert kept[0] == lines[0] && kept[1..] == rest;
        assert KeepNonBlank(kept) == [lines[0]] + KeepNonBlank(rest);
      } else {
        assert KeepNonBlank(lines) == rest;
      }
    }
  }

  /** The kept lines of a text are non-empty and hold no line break. */
  lemma KeptLinesJoinable(text: string)
    ensures forall l :: l in KeepNonBlank(SplitLines(text)) ==> l != [] && NoLineBreak(l)
  {
    KeepNonBlankMembers(SplitLines(text));
    SplitLinesNoBreak(text);
  }

  /** The output's lines are the input's non-blank lines, in order. */
  lemma DropBlankLinesLines(text: string)
    ensures SplitLines(DropBlankLines(text)) == KeepNonBlank(SplitLines(text))
  {
    KeptLinesJoinable(text);
    SplitJoinLines(KeepNonBlank(SplitLines(text)));
  }

  /** No line of the output is blank, and every line of it is a line of the input. */
  lemma DropBlankLinesNoBlank(text: string)
    ensures forall l :: l in SplitLines(DropBlankLines(text)) ==> !Blank(l) && l in SplitLines(text)
  {
    DropBlankLinesLines(text);
    KeepNonBlankMembers(SplitLines(text));
  }

  /** Dropping blank lines twice is dropping them once. */
  lemma DropBlankLinesIdempotent(text: string)
    ensures DropBlankLines(DropBlankLines(text)) == DropBlankLines(text)
  {
    DropBlankLinesLines(text);
    KeepNonBlankIdempotent(SplitLines(text));
  }
}
