/**
 * The server-side flow compiler of `server/utils/formCompiler.ts`: the
 * compiled field list a published form carries, the version bump written
 * with it, and the guard that recompiles only published forms.
 */
module FormCompiler {
  import opened Wrappers
  import Js
  import opened Records
  import Sorting

  /** `field.meta`, or the empty `{options: [], validations: {}, conditional_logic: []}` default. */
  datatype FlowMeta = Given(meta: Meta) | EmptyMeta

  datatype CompiledField = CompiledField(
    id: string,
    fieldKey: string,
    caption: string,
    fieldType: string,
    placeholder: string,
    isRequired: bool,
    order: nat,
    meta: FlowMeta)

  datatype CompiledFlow = CompiledFlow(version: int, fields: seq<CompiledField>, totalFields: nat, compiledAt: int)

  /** The fields as `sort((a, b) => a.order_idx - b.order_idx)` leaves them (a stable sort). */
  function ByOrder(fields: seq<Field>): (r: seq<Field>)
    ensures Sorting.SortedBy(r, OrderIdx) && multiset(r) == multiset(fields) && |r| == |fields|
  {
    Sorting.SortBy(fields, OrderIdx)
  }

  /** One compiled entry, with the defaults for a missing placeholder, flag and meta. */
  function CompileField(f: Field, index: nat): (r: CompiledField)
    ensures r.id == f.id && r.order == index
    ensures r.placeholder == (if Js.Truthy(f.placeholder) then f.placeholder.value else "")
    ensures r.isRequired <==> f.isRequired == Some(true)
    ensures r.meta.EmptyMeta? <==> f.meta.None?
  {
    CompiledField(
      f.id, f.fieldKey, f.caption, f.fieldType,
      Js.OrElse(f.placeholder, ""),
      f.isRequired == Some(true),
      index,
      if f.meta.Some? then Given(f.meta.value) else EmptyMeta)
  }

  /**
   * `compileFormFlow`: the fields in ascending `order_idx`, numbered from 0,
   * with their count and the form's version (`flow_version || 1`).
   */
  function CompileFormFlow(form: Form, fields: seq<Field>, now: int): (r: CompiledFlow)
    ensures r.totalFields == |r.fields| == |fields|
    ensures r.version == FlowVersion(form) && r.version != 0 && r.compiledAt == now
    ensures forall k :: 0 <= k < |r.fields| ==> r.fields[k].order == k && r.fields[k] == CompileField(ByOrder(fields)[k], k)
  {
    var sorted := ByOrder(fields);
    var compiled := seq(|sorted|, k requires 0 <= k < |sorted| => CompileField(sorted[k], k));
    CompiledFlow(FlowVersion(form), compiled, |compiled|, now)
  }

  function FieldIds(fields: seq<Field>): (r: seq<string>)
    ensures |r| == |fields| && forall k :: 0 <= k < |fields| ==> r[k] == fields[k].id
  {
    seq(|fields|, k requires 0 <= k < |fields| => fields[k].id)
  }

  function CompiledIds(flow: CompiledFlow): (r: seq<string>)
    ensures |r| == |flow.fields| && forall k :: 0 <= k < |flow.fields| ==> r[k] == flow.fields[k].id
  {
    seq(|flow.fields|, k requires 0 <= k < |flow.fields| => flow.fields[k].id)
  }

  lemma FieldIdsAppend(a: seq<Field>, b: seq<Field>)
    ensures FieldIds(a + b) == FieldIds(a) + FieldIds(b)
  {
  }

  /** Reordering rows reorders their ids: equal multisets of rows have equal multisets of ids. */
  lemma {:induction false} FieldIdsPermute(a: seq<Field>, b: seq<Field>)
    requires multiset(a) == multiset(b)
    ensures multiset(FieldIds(a)) == multiset(FieldIds(b))
    decreases |a|
  {
    if |a| == 0 {
      assert |b| == 0;
    } else {
      var x := a[0];
      assert x in multiset(b);
      var i :| 0 <= i < |b| && b[i] == x;
      var b' := b[..i] + b[i + 1..];
      assert b == b[..i] + [x] + b[i + 1..];
      assert a == [x] + a[1..];
      calc {
        multiset(b);
        multiset(b[..i] + [x] + b[i + 1..]);
        multiset(b[..i]) + multiset([x]) + multiset(b[i + 1..]);
        multiset(b') + multiset([x]);
      }
      assert multiset(a) == multiset(a[1..]) + multiset([x]);
      assert multiset(a[1..]) == multiset(a) - multiset([x]);
      assert multiset(b') == multiset(b) - multiset([x]);
      FieldIdsPermute(a[1..], b');
      FieldIdsAppend([x], a[1..]);
      FieldIdsAppend(b[..i] + [x], b[i + 1..]);
      FieldIdsAppend(b[..i], [x]);
      FieldIdsAppend(b[..i], b[i + 1..]);
    }
  }

  /**
   * The compiled list is the input rearranged: consecutive entries come from
   * fields with non-decreasing `order_idx`, and every input id appears in
   * it exactly as often as in the input.
   */
  lemma CompiledIsPermutation(form: Form, fields: seq<Field>, now: int)
    ensures var r := CompileFormFlow(form, fields, now);
      && multiset(CompiledIds(r)) == multiset(FieldIds(fields))
      && forall i, j :: 0 <= i < j < |r.fields| ==> ByOrder(fields)[i].orderIdx <= ByOrder(fields)[j].orderIdx
  {
    var r := CompileFormFlow(form, fields, now);
    assert CompiledIds(r) == FieldIds(ByOrder(fields));
    FieldIdsPermute(ByOrder(fields), fields);
    assert forall i, j :: 0 <= i < j < |r.fields| ==> OrderIdx(ByOrder(fields)[i]) <= OrderIdx(ByOrder(fields)[j]);
  }

  // ------------------------------------------------------------ persisting

  /** The `forms` table as the compiler sees it: rows plus each form's stored `flow_json`. */
  datatype FormsTable = FormsTable(forms: seq<Form>, flows: map<string, CompiledFlow>)

  /** `(flowJson.version || 1) + 1`. */
  function NextVersion(flow: CompiledFlow): int {
    (if flow.version != 0 then flow.version else 1) + 1
  }

  /** Rows with the given id. */
  function FormsWithId(forms: seq<Form>, id: string): (r: seq<Form>)
    ensures forall f :: f in r <==> f in forms && f.id == id
  {
    if |forms| == 0 then []
    else (if forms[0].id == id then [forms[0]] else []) + FormsWithId(forms[1..], id)
  }

  /**
   * `updateFormFlow`: every row with the id gets the flow and the next
   * version; the `.single()` read-back fails unless exactly one row matched.
   */
  function UpdateFormFlow(t: FormsTable, formId: string, flow: CompiledFlow): (r: Result<(FormsTable, Form)>)
    ensures r.Ok? <==> |FormsWithId(t.forms, formId)| == 1
    ensures r.Ok? ==> r.value.1 == FormsWithId(t.forms, formId)[0].(flowVersion := Some(NextVersion(flow)))
    ensures r.Ok? ==> r.value.0.flows == t.flows[formId := flow] && |r.value.0.forms| == |t.forms|
    ensures r.Ok? ==> forall k :: 0 <= k < |t.forms| ==>
      r.value.0.forms[k] == (if t.forms[k].id == formId then t.forms[k].(flowVersion := Some(NextVersion(flow))) else t.forms[k])
  {
    var matched := FormsWithId(t.forms, formId);
    if |matched| != 1 then Err("Failed to update form flow: " + NotSingleError)
    else
      var forms := seq(|t.forms|, k requires 0 <= k < |t.forms| =>
        if t.forms[k].id == formId then t.forms[k].(flowVersion := Some(NextVersion(flow))) else t.forms[k]);
      Ok((FormsTable(forms, t.flows[formId := flow]), matched[0].(flowVersion := Some(NextVersion(flow)))))
  }

  /**
   * `recompileIfPublished`: 'Form not found' unless exactly one row has the
   * id; an unpublished form is returned as it is, with nothing compiled or
   * written; a published one is compiled from its fields and written back.
   */
  function RecompileIfPublished(t: FormsTable, fields: seq<Field>, formId: string, now: int): (r: Result<(FormsTable, Form)>)
    ensures Single(FormsWithId(t.forms, formId)).None? ==> r == Err("Form not found")
    ensures Single(FormsWithId(t.forms, formId)).Some? && !Single(FormsWithId(t.forms, formId)).value.isPublished ==>
      r == Ok((t, Single(FormsWithId(t.forms, formId)).value))
  {
    match Single(FormsWithId(t.forms, formId))
    case None => Err("Form not found")
    case Some(form) =>
      if !form.isPublished then Ok((t, form))
      else UpdateFormFlow(t, formId, CompileFormFlow(form, FormFields(fields, formId), now))
  }

  /**
   * Recompiling a published form stores a flow holding exactly that form's
   * fields and advances the stored version by one (a missing or zero
   * version counts as 1).
   */
  lemma RecompileBumpsVersion(t: FormsTable, fields: seq<Field>, formId: string, now: int)
    requires Single(FormsWithId(t.forms, formId)).Some? && Single(FormsWithId(t.forms, formId)).value.isPublished
    ensures var form := Single(FormsWithId(t.forms, formId)).value;
      var r := RecompileIfPublished(t, fields, formId, now);
      && r.Ok?
      && r.value.1.flowVersion == Some(FlowVersion(form) + 1)
      && formId in r.value.0.flows
      && r.value.0.flows[formId].totalFields == |FormFields(fields, formId)|
      && forall k :: 0 <= k < r.value.0.flows[formId].totalFields ==> r.value.0.flows[formId].fields[k].order == k
  {
  }
}
