/**
 * The form-builder composable of `composables/useForms.ts`: the client-side
 * flow compiler, the shape of generated form keys, publishing, field
 * reordering and the local list updates that follow each database write.
 * Database rows are the ones of `Records`; the row a write hands back is a
 * parameter where the write itself is not modelled.
 */
module UseForms {
  import opened Wrappers
  import opened Text
  import opened Records
  import Sorting
  import Helpers
  import FormCompiler

  /** The parts of a form's `config` that reach the flow. */
  datatype Config = Config(allowEdit: bool, expiryDays: Option<int>, alias: Option<string>)

  /** `currentForm`: a form row with its config and its fields in editor order. */
  datatype Editing = Editing(form: Form, config: Config, fields: seq<Field>)

  /** The composable's state: the form list, the form being edited and the last error text. */
  datatype Editor = Editor(forms: seq<Form>, current: Option<Editing>, error: Option<string>)

  // ------------------------------------------------------------ compileFlow

  /** One step of the client flow; `required` is what `meta.validations` carries in this model. */
  datatype Step = Step(
    stepId: string,
    fieldId: string,
    fieldType: string,
    prompt: string,
    required: bool,
    next: Option<string>,
    options: Option<seq<Choice>>)

  datatype FlowSettings = FlowSettings(
    allowEdit: bool,
    editWindowDays: Option<int>,
    alias: Option<string>,
    webUrl: string,
    whatsappTrigger: string)

  datatype Flow = Flow(formKey: string, title: string, steps: seq<Step>, settings: FlowSettings)

  /** The id of the step at position `i`: `s1`, `s2`, … */
  function StepId(i: nat): (r: string)
    ensures |r| >= 2 && r[0] == 's' && r[1..] == NatToString(i + 1)
  {
    "s" + NatToString(i + 1)
  }

  /** The field kinds whose steps carry an option list. */
  predicate HasOptions(fieldType: string) {
    fieldType == "select" || fieldType == "multiselect"
  }

  /** The step for the field at position `i`; `meta` must be present (reading through a missing one throws). */
  function CompileStep(fields: seq<Field>, i: nat): (r: Step)
    requires i < |fields| && fields[i].meta.Some?
    ensures r.fieldId == fields[i].id && r.prompt == fields[i].caption && r.fieldType == fields[i].fieldType
  {
    var f := fields[i];
    Step(
      StepId(i), f.id, f.fieldType, f.caption, f.meta.value.requiredRule,
      if i == |fields| - 1 then None else Some(StepId(i + 1)),
      if HasOptions(f.fieldType) then Some(f.meta.value.options.GetOr([])) else None)
  }

  /** Some field has no `meta`, so `field.meta.validations` throws. */
  predicate MissingMeta(fields: seq<Field>) {
    exists k :: 0 <= k < |fields| && fields[k].meta.None?
  }

  /**
   * The `message` of the TypeError V8 raises for `field.meta.validations`
   * when the stored `meta` column is null; it is what `publishForm` records.
   */
  const NullMetaMessage := "Cannot read properties of null (reading 'validations')"

  /**
   * `compileFlow`: one step per field in editor order, with the web link
   * under `origin` (the browser's `window.location.origin`) and the chat
   * start command.
   */
  function CompileFlow(e: Editing, origin: string): (r: Result<Flow>)
    ensures r.Err? <==> MissingMeta(e.fields)
    ensures r.Err? ==> r.error == NullMetaMessage
    ensures r.Ok? ==> |r.value.steps| == |e.fields| && r.value.formKey == e.form.formKey
    ensures r.Ok? ==> forall k :: 0 <= k < |e.fields| ==> r.value.steps[k] == CompileStep(e.fields, k)
  {
    if MissingMeta(e.fields) then Err(NullMetaMessage)
    else
      var steps := seq(|e.fields|, k requires 0 <= k < |e.fields| => CompileStep(e.fields, k));
      Ok(Flow(
        e.form.formKey, e.form.title, steps,
        FlowSettings(
          e.config.allowEdit, e.config.expiryDays, e.config.alias,
          origin + "/f/" + e.form.formKey,
          "START:" + e.form.formKey)))
  }

  /**
   * The steps form a chain: each step's `next` names the step after it,
   * the last step's `next` is null, and no two steps share an id.
   */
  lemma StepsChain(e: Editing, origin: string)
    requires CompileFlow(e, origin).Ok?
    ensures var steps := CompileFlow(e, origin).value.steps;
      && (forall k :: 0 <= k < |steps| - 1 ==> steps[k].next == Some(steps[k + 1].stepId))
      && (|steps| > 0 ==> steps[|steps| - 1].next.None?)
      && forall i, j :: 0 <= i < j < |steps| ==> steps[i].stepId != steps[j].stepId
  {
    var steps := CompileFlow(e, origin).value.steps;
    forall i, j | 0 <= i < j < |steps| ensures steps[i].stepId != steps[j].stepId {
      if steps[i].stepId == steps[j].stepId {
        assert StepId(i)[1..] == StepId(j)[1..];
        NatToStringInjective(i + 1, j + 1);
      }
    }
  }

  /** A step carries an option list exactly when its field is a `select` or `multiselect`; a missing list reads as empty. */
  lemma OptionsOnlyForChoices(e: Editing, origin: string, k: nat)
    requires CompileFlow(e, origin).Ok? && k < |e.fields|
    ensures var step := CompileFlow(e, origin).value.steps[k];
      && (step.options.Some? <==> HasOptions(e.fields[k].fieldType))
      && (step.options.Some? ==> step.options.value == e.fields[k].meta.value.options.GetOr([]))
      && step.required == e.fields[k].meta.value.requiredRule
  {
  }

  /** The flow's chat trigger is a start command from which the form key is read back. */
  lemma TriggerRecoversKey(e: Editing, origin: string)
    requires CompileFlow(e, origin).Ok?
    requires |e.form.formKey| > 0 && AllAlnum(e.form.formKey)
    ensures var trigger := CompileFlow(e, origin).value.settings.whatsappTrigger;
      Helpers.ExtractFormKey(trigger) == Some(e.form.formKey) && Helpers.IsFormStartMessage(trigger)
  {
    Helpers.ExtractFormKeyIff("START:" + e.form.formKey, e.form.formKey);
    Helpers.ExtractImpliesStart("START:" + e.form.formKey);
  }

  // ------------------------------------------------------------ generateFormKey

  /** The character at position `i` of `0-9A-Za-z`. */
  function KeyChar(i: nat): (c: char)
    requires i < 62
    ensures IsAlnum(c)
  {
    if i < 10 then ('0' as int + i) as char
    else if i < 36 then ('A' as int + (i - 10)) as char
    else ('a' as int + (i - 36)) as char
  }

  /** The key alphabet `0123456789ABCDEFGHIJKLMNOPQRSTUVWXYZabcdefghijklmnopqrstuvwxyz`. */
  function KeyAlphabet(): (r: string)
    ensures |r| == 62 && forall i :: 0 <= i < 62 ==> r[i] == KeyChar(i)
  {
    seq(62, i requires 0 <= i < 62 => KeyChar(i))
  }

  /** Where `c` sits in the key alphabet. */
  function KeyIndex(c: char): (r: nat)
    requires IsAlnum(c)
    ensures r < 62 && KeyAlphabet()[r] == c
  {
    if IsDigit(c) then c as int - '0' as int
    else if IsUpper(c) then c as int - 'A' as int + 10
    else c as int - 'a' as int + 36
  }

  /** A random draw of `Math.floor(Math.random() * 62)`. */
  predicate Draws(picks: seq<nat>) {
    |picks| == 8 && forall k :: 0 <= k < 8 ==> picks[k] < 62
  }

  /**
   * `generateFormKey`: eight characters of the alphabet, the `k`-th chosen
   * by the `k`-th random draw, which is a parameter here.
   */
  function GenerateFormKey(picks: seq<nat>): (r: string)
    requires Draws(picks)
    ensures |r| == 8 && AllAlnum(r)
  {
    var alphabet := KeyAlphabet();
    assert forall k :: 0 <= k < 8 ==> IsAlnum(alphabet[picks[k]]) by {
      forall k | 0 <= k < 8 ensures IsAlnum(alphabet[picks[k]]) {
        assert alphabet[picks[k]] == KeyChar(picks[k]);
      }
    }
    seq(8, k requires 0 <= k < 8 => alphabet[picks[k]])
  }

  /** The draws behind a key. */
  function KeyDraws(key: string): (r: seq<nat>)
    requires AllAlnum(key)
    ensures |r| == |key|
  {
    seq(|key|, k requires 0 <= k < |key| => KeyIndex(key[k]))
  }

  /**
   * Different draws give different keys (the draws are read back from the
   * key), and a generated key is recovered from its `START:` command.
   */
  lemma GeneratedKeyRoundTrip(picks: seq<nat>)
    requires Draws(picks)
    ensures KeyDraws(GenerateFormKey(picks)) == picks
    ensures Helpers.ExtractFormKey("START:" + GenerateFormKey(picks)) == Some(GenerateFormKey(picks))
  {
    var key := GenerateFormKey(picks);
    forall k | 0 <= k < 8 ensures KeyDraws(key)[k] == picks[k] {
      assert KeyAlphabet()[KeyIndex(key[k])] == key[k] == KeyAlphabet()[picks[k]];
      assert KeyChar(KeyIndex(key[k])) == KeyChar(picks[k]);
    }
    Helpers.ExtractFormKeyIff("START:" + key, key);
  }

  // ------------------------------------------------------------ publishForm

  /** The forms table with the client flow each row stores in `flow_json`. */
  datatype FormsDb = FormsDb(rows: seq<Form>, flows: map<string, Flow>)

  /** The result of an editor action: the database after it, the editor state, and what it returned. */
  datatype Outcome = Outcome(db: FormsDb, editor: Editor, result: Result<Form>)

  const NoFieldsError := "Form must have at least one field"

  /** `(currentForm.flow_version || 0) + 1`. */
  function PublishVersion(form: Form): int {
    (if form.flowVersion.Some? && form.flowVersion.value != 0 then form.flowVersion.value else 0) + 1
  }

  /** The first position holding a form with the id (`findIndex`). */
  function IndexOfForm(forms: seq<Form>, id: string): (r: Option<nat>)
    ensures r.Some? ==> r.value < |forms| && forms[r.value].id == id
    ensures r.Some? ==> forall k :: 0 <= k < r.value ==> forms[k].id != id
    ensures r.None? ==> forall k :: 0 <= k < |forms| ==> forms[k].id != id
  {
    if |forms| == 0 then None
    else if forms[0].id == id then Some(0)
    else
      match IndexOfForm(forms[1..], id)
      case None => None
      case Some(k) => Some(k + 1)
  }

  /** `forms[findIndex(id)] = data` when the id is listed. */
  function ReplaceFirstForm(forms: seq<Form>, id: string, data: Form): (r: seq<Form>)
    ensures |r| == |forms|
    ensures IndexOfForm(forms, id).None? ==> r == forms
    ensures IndexOfForm(forms, id).Some? ==> r == forms[IndexOfForm(forms, id).value := data]
  {
    match IndexOfForm(forms, id)
    case None => forms
    case Some(k) => forms[k := data]
  }

  /**
   * `publishForm`: refuses when the editor holds no fields, then compiles
   * the editor's form and writes it as published with the next version.
   * As in the source, the fields and the version are the editor's, whatever
   * form `formId` names, and the returned row replaces the editor's form.
   * The error is cleared when the action starts, so a success leaves none.
   */
  function PublishForm(db: FormsDb, ed: Editor, formId: string, origin: string): (r: Outcome)
    ensures ed.current.None? || |ed.current.value.fields| == 0 ==>
      r == Outcome(db, ed.(error := Some(NoFieldsError)), Err(NoFieldsError))
    ensures r.result.Err? ==> r.editor.error == Some(r.result.error)
    ensures r.result.Ok? ==> ed.current.Some? && |ed.current.value.fields| > 0
    ensures r.result.Ok? ==> r.result.value.isPublished && r.result.value.flowVersion == Some(PublishVersion(ed.current.value.form))
    ensures r.result.Ok? ==> r.editor.error.None?
  {
    if ed.current.None? || |ed.current.value.fields| == 0 then
      Outcome(db, ed.(error := Some(NoFieldsError)), Err(NoFieldsError))
    else
      var cur := ed.current.value;
      match CompileFlow(cur, origin)
      case Err(e) => Outcome(db, ed.(error := Some(e)), Err(e))
      case Ok(flow) =>
        var matched := FormCompiler.FormsWithId(db.rows, formId);
        if |matched| != 1 then Outcome(db, ed.(error := Some(NotSingleError)), Err(NotSingleError))
        else
          var data := matched[0].(isPublished := true, flowVersion := Some(PublishVersion(cur.form)));
          var rows := seq(|db.rows|, k requires 0 <= k < |db.rows| => if db.rows[k].id == formId then data else db.rows[k]);
          Outcome(
            FormsDb(rows, db.flows[formId := flow]),
            Editor(ReplaceFirstForm(ed.forms, formId, data), Some(cur.(form := data)), None),
            Ok(data))
  }

  /**
   * A successful publish stores, under `formId`, the flow compiled from the
   * editor's fields (one step per field, in editor order) and marks that
   * row published with the version after the editor's; every other row is
   * left as it was.
   */
  lemma PublishStoresEditorFlow(db: FormsDb, ed: Editor, formId: string, origin: string)
    requires PublishForm(db, ed, formId, origin).result.Ok?
    ensures var r := PublishForm(db, ed, formId, origin);
      var fields := ed.current.value.fields;
      && formId in r.db.flows
      && |r.db.flows[formId].steps| == |fields|
      && (forall k :: 0 <= k < |fields| ==> r.db.flows[formId].steps[k].fieldId == fields[k].id)
      && |r.db.rows| == |db.rows|
      && (forall k :: 0 <= k < |db.rows| && db.rows[k].id != formId ==> r.db.rows[k] == db.rows[k])
      && (forall k :: 0 <= k < |db.rows| && db.rows[k].id == formId ==> r.db.rows[k] == r.result.value)
      && r.result.value.id == formId
      && r.editor.current == Some(ed.current.value.(form := r.result.value))
  {
    var cur := ed.current.value;
    var flow := CompileFlow(cur, origin).value;
    assert FormCompiler.FormsWithId(db.rows, formId)[0] in FormCompiler.FormsWithId(db.rows, formId);
  }

  // ------------------------------------------------------------ reorderFields

  /** `update({order_idx: idx}).eq('id', id)` on the fields table. */
  function SetOrder(rows: seq<Field>, id: string, idx: int): (r: seq<Field>)
    ensures |r| == |rows|
    ensures forall k :: 0 <= k < |rows| ==> r[k] == (if rows[k].id == id then rows[k].(orderIdx := idx) else rows[k])
  {
    seq(|rows|, k requires 0 <= k < |rows| => if rows[k].id == id then rows[k].(orderIdx := idx) else rows[k])
  }

  /** The database side of `reorderFields`: one update per id, in list order, the id at position `i` getting `order_idx = i`. */
  function ReorderRows(rows: seq<Field>, ids: seq<string>): (r: seq<Field>)
    ensures |r| == |rows|
    decreases |ids|
  {
    if |ids| == 0 then rows
    else SetOrder(ReorderRows(rows, ids[..|ids| - 1]), ids[|ids| - 1], |ids| - 1)
  }

  predicate Distinct(ids: seq<string>) {
    forall i, j :: 0 <= i < j < |ids| ==> ids[i] != ids[j]
  }

  /**
   * With distinct ids, every row whose id is listed ends with `order_idx`
   * equal to that id's position in the list, and every other row is untouched.
   */
  lemma {:induction false} ReorderAssigns(rows: seq<Field>, ids: seq<string>)
    requires Distinct(ids)
    ensures var r := ReorderRows(rows, ids);
      && (forall k, p :: 0 <= k < |rows| && 0 <= p < |ids| && ids[p] == rows[k].id ==> r[k] == rows[k].(orderIdx := p))
      && (forall k :: 0 <= k < |rows| && rows[k].id !in ids ==> r[k] == rows[k])
    decreases |ids|
  {
    if |ids| > 0 {
      var n := |ids| - 1;
      var front := ids[..n];
      assert Distinct(front);
      ReorderAssigns(rows, front);
      var mid := ReorderRows(rows, front);
      var r := ReorderRows(rows, ids);
      assert r == SetOrder(mid, ids[n], n);
      forall k, p | 0 <= k < |rows| && 0 <= p < |ids| && ids[p] == rows[k].id
        ensures r[k] == rows[k].(orderIdx := p)
      {
        if p == n {
          assert rows[k].id !in front by {
            forall q | 0 <= q < n ensures front[q] != rows[k].id {
              assert ids[q] != ids[n];
            }
          }
        } else {
          assert front[p] == rows[k].id;
        }
      }
      forall k | 0 <= k < |rows| && rows[k].id !in ids ensures r[k] == rows[k] {
        assert rows[k].id !in front by {
          forall q | 0 <= q < n ensures front[q] != rows[k].id {
            assert front[q] == ids[q];
          }
        }
      }
    }
  }

  /**
   * The editor after a successful `reorderFields`: the error the action
   * cleared on entry, and `currentForm.fields.sort((a, b) => a.order_idx -
   * b.order_idx)` when the editor shows `formId`.
   */
  function SortLocal(ed: Editor, formId: string): (r: Editor)
    ensures r.forms == ed.forms && r.error.None?
    ensures r.current.Some? == ed.current.Some?
    ensures ed.current.Some? && ed.current.value.form.id == formId ==>
      && Sorting.SortedBy(r.current.value.fields, OrderIdx)
      && multiset(r.current.value.fields) == multiset(ed.current.value.fields)
      && r.current.value.(fields := ed.current.value.fields) == ed.current.value
    ensures !(ed.current.Some? && ed.current.value.form.id == formId) ==> r.current == ed.current
  {
    if ed.current.Some? && ed.current.value.form.id == formId then
      ed.(current := Some(ed.current.value.(fields := Sorting.SortBy(ed.current.value.fields, OrderIdx))), error := None)
    else ed.(error := None)
  }

  /**
   * `reorderFields` as written: the database gets the new positions, but
   * the editor's fields are re-sorted by the `order_idx` values they
   * already held, which the database writes did not change.
   */
  function ReorderFields(rows: seq<Field>, ed: Editor, formId: string, ids: seq<string>): (r: (seq<Field>, Editor))
    ensures r.0 == ReorderRows(rows, ids)
    ensures ed.current.Some? ==> r.1.current.Some? && multiset(r.1.current.value.fields) == multiset(ed.current.value.fields)
    ensures r.1.error.None?
  {
    (ReorderRows(rows, ids), SortLocal(ed, formId))
  }

  function LocalIds(ed: Editor): seq<string>
    requires ed.current.Some?
  {
    FormCompiler.FieldIds(ed.current.value.fields)
  }

  // The two fields of the stale-reorder example, and the editor showing them.
  const StaleA: Field := Field("a", "f", "a", "text", "A", None, None, 0, None)
  const StaleB: Field := Field("b", "f", "b", "text", "B", None, None, 1, None)
  const StaleForm: Form := Form("f", "K", "T", false, None, "o")
  const StaleEditor: Editor := Editor([StaleForm], Some(Editing(StaleForm, Config(true, None, None), [StaleA, StaleB])), None)

  /** Re-sorting the example's editor by its own `order_idx` values keeps `a` first. */
  lemma StaleSortKeepsOrder()
    ensures SortLocal(StaleEditor, "f").current.value.fields == [StaleA, StaleB]
  {
    var a, b := StaleA, StaleB;
    assert [a, b][1..] == [b];
    assert Sorting.SortBy([b], OrderIdx) == [b];
    assert Sorting.SortBy([a, b], OrderIdx) == Sorting.Insert(a, [b], OrderIdx) == [a, b];
  }

  /** The database rows of the example get the requested positions: `b` at 0, `a` at 1. */
  lemma StaleRowsReordered()
    ensures ReorderRows([StaleA, StaleB], ["b", "a"]) == [StaleA.(orderIdx := 1), StaleB.(orderIdx := 0)]
  {
    var a, b := StaleA, StaleB;
    var once := ReorderRows([a, b], ["b"]);
    assert ["b", "a"][..1] == ["b"];
    assert once == SetOrder([a, b], "b", 0) == [a, b.(orderIdx := 0)];
    assert ReorderRows([a, b], ["b", "a"]) == SetOrder(once, "a", 1);
  }

  /**
   * The editor's order does not follow the request: with fields `a` (at 0)
   * and `b` (at 1) and the request `[b, a]`, the database puts `b` first
   * while the editor still lists `a` first.
   */
  lemma ReorderLeavesEditorStale()
    ensures var r := ReorderFields([StaleA, StaleB], StaleEditor, "f", ["b", "a"]);
      && r.0 == [StaleA.(orderIdx := 1), StaleB.(orderIdx := 0)]
      && LocalIds(r.1) == ["a", "b"]
  {
    StaleSortKeepsOrder();
    StaleRowsReordered();
  }


  /**
   * The editor's list in the requested order: for each requested id the
   * editor's field with that id, carrying its new position; ids the editor
   * does not hold are skipped.
   */
  function Arrange(fields: seq<Field>, ids: seq<string>): (r: seq<Field>)
    ensures |r| <= |ids|
    decreases |ids|
  {
    if |ids| == 0 then []
    else
      var n := |ids| - 1;
      Arrange(fields, ids[..n]) +
        match IndexOfField(fields, ids[n])
        case Some(j) => [fields[j].(orderIdx := n)]
        case None => []
  }

  /** Every requested id names a field the editor holds. */
  predicate AllHeld(fields: seq<Field>, ids: seq<string>) {
    forall p :: 0 <= p < |ids| ==> IndexOfField(fields, ids[p]).Some?
  }

  /** When every id is held, position `k` of the arranged list is the held field for `ids[k]`, at position `k`. */
  lemma {:induction false} ArrangeFollowsIds(fields: seq<Field>, ids: seq<string>)
    requires AllHeld(fields, ids)
    ensures var r := Arrange(fields, ids);
      && |r| == |ids|
      && forall k :: 0 <= k < |ids| ==> r[k] == fields[IndexOfField(fields, ids[k]).value].(orderIdx := k)
    decreases |ids|
  {
    if |ids| > 0 {
      var n := |ids| - 1;
      assert AllHeld(fields, ids[..n]) by {
        forall p | 0 <= p < n ensures IndexOfField(fields, ids[..n][p]).Some? {
          assert ids[..n][p] == ids[p];
        }
      }
      ArrangeFollowsIds(fields, ids[..n]);
      forall k | 0 <= k < n ensures ids[..n][k] == ids[k] { }
    }
  }

  /**
   * `reorderFields` with the editor updated to the requested order: the
   * same database writes, and the editor's fields rebuilt by `Arrange`.
   */
  function ReorderFieldsFixed(rows: seq<Field>, ed: Editor, formId: string, ids: seq<string>): (r: (seq<Field>, Editor))
    ensures r.0 == ReorderRows(rows, ids)
    ensures r.1.forms == ed.forms && r.1.current.Some? == ed.current.Some? && r.1.error.None?
    ensures !(ed.current.Some? && ed.current.value.form.id == formId) ==> r.1.current == ed.current
  {
    var local :=
      if ed.current.Some? && ed.current.value.form.id == formId then
        ed.(current := Some(ed.current.value.(fields := Arrange(ed.current.value.fields, ids))), error := None)
      else ed.(error := None);
    (ReorderRows(rows, ids), local)
  }

  /**
   * With distinct requested ids that the editor all holds, the corrected
   * reorder leaves the editor listing exactly the requested ids in order,
   * each at its position, and the database row of each listed field holds
   * that same position.
   */
  lemma ReorderFixedMatchesRequest(rows: seq<Field>, ed: Editor, formId: string, ids: seq<string>)
    requires ed.current.Some? && ed.current.value.form.id == formId
    requires Distinct(ids) && AllHeld(ed.current.value.fields, ids)
    ensures var r := ReorderFieldsFixed(rows, ed, formId, ids);
      && LocalIds(r.1) == ids
      && (forall k :: 0 <= k < |ids| ==> r.1.current.value.fields[k].orderIdx == k)
      && forall j, k :: 0 <= j < |rows| && 0 <= k < |ids| && rows[j].id == ids[k] ==> r.0[j].orderIdx == k
  {
    ArrangeFollowsIds(ed.current.value.fields, ids);
    ReorderAssigns(rows, ids);
  }

  // ------------------------------------------------------------ local list updates

  /**
   * `deleteField` after a successful delete: the error is cleared, and the
   * editor loses every field with the id and keeps the others in order.
   */
  function DeleteFieldLocal(ed: Editor, fieldId: string): (r: Editor)
    ensures r.forms == ed.forms && r.current.Some? == ed.current.Some? && r.error.None?
    ensures r.current.Some? ==> r.current.value.fields == Without(ed.current.value.fields, IdOfField, fieldId)
    ensures r.current.Some? ==> forall f :: f in r.current.value.fields <==> f in ed.current.value.fields && f.id != fieldId
  {
    if ed.current.Some? then
      WithoutCounts(ed.current.value.fields, IdOfField, fieldId);
      ed.(current := Some(ed.current.value.(fields := Without(ed.current.value.fields, IdOfField, fieldId))), error := None)
    else ed.(error := None)
  }

  /** `updateField` after a successful write: the error is cleared and the first editor field with the id becomes the returned row. */
  function UpdateFieldLocal(ed: Editor, fieldId: string, data: Field): (r: Editor)
    ensures r.forms == ed.forms && r.current.Some? == ed.current.Some? && r.error.None?
    ensures r.current.Some? ==> |r.current.value.fields| == |ed.current.value.fields|
    ensures r.current.Some? ==> forall k :: 0 <= k < |ed.current.value.fields| ==>
      r.current.value.fields[k] == (if IndexOfField(ed.current.value.fields, fieldId) == Some(k) then data else ed.current.value.fields[k])
  {
    if ed.current.None? then ed.(error := None)
    else
      var fields := ed.current.value.fields;
      match IndexOfField(fields, fieldId)
      case None => ed.(error := None)
      case Some(k) => ed.(current := Some(ed.current.value.(fields := fields[k := data])), error := None)
  }

  /** `addField` after a successful insert: the error is cleared and the row is appended when the editor shows that form. */
  function AddFieldLocal(ed: Editor, formId: string, data: Field): (r: Editor)
    ensures r.forms == ed.forms && r.current.Some? == ed.current.Some? && r.error.None?
    ensures ed.current.Some? && ed.current.value.form.id == formId ==> r.current.value.fields == ed.current.value.fields + [data]
    ensures !(ed.current.Some? && ed.current.value.form.id == formId) ==> r == ed.(error := None)
  {
    if ed.current.Some? && ed.current.value.form.id == formId then
      ed.(current := Some(ed.current.value.(fields := ed.current.value.fields + [data])), error := None)
    else ed.(error := None)
  }

  /**
   * `updateForm` (and `unpublishForm`) after a successful write: the error
   * is cleared, and the listed form and, when it is the one being edited,
   * the editor's form become the returned row.
   */
  function UpdateFormLocal(ed: Editor, formId: string, data: Form): (r: Editor)
    ensures r.forms == ReplaceFirstForm(ed.forms, formId, data) && r.error.None?
    ensures ed.current.Some? && ed.current.value.form.id == formId ==> r.current == Some(ed.current.value.(form := data))
    ensures !(ed.current.Some? && ed.current.value.form.id == formId) ==> r.current == ed.current
  {
    var current :=
      if ed.current.Some? && ed.current.value.form.id == formId then Some(ed.current.value.(form := data)) else ed.current;
    ed.(forms := ReplaceFirstForm(ed.forms, formId, data), current := current, error := None)
  }

  /**
   * `deleteForm` after a successful delete: the error is cleared, every
   * form with the id leaves the list while the others keep their order,
   * and the editor is cleared when it showed that form.
   */
  function DeleteFormLocal(ed: Editor, formId: string): (r: Editor)
    ensures r.error.None?
    ensures r.forms == Without(ed.forms, IdOfForm, formId)
    ensures forall f :: f in r.forms <==> f in ed.forms && f.id != formId
    ensures ed.current.Some? && ed.current.value.form.id == formId ==> r.current.None?
    ensures !(ed.current.Some? && ed.current.value.form.id == formId) ==> r.current == ed.current
  {
    var current := if ed.current.Some? && ed.current.value.form.id == formId then None else ed.current;
    WithoutCounts(ed.forms, IdOfForm, formId);
    ed.(forms := Without(ed.forms, IdOfForm, formId), current := current, error := None)
  }

  /** `formCount`. */
  function FormCount(ed: Editor): nat {
    |ed.forms|
  }

  /** `forms.filter(f => f.is_published).length`. */
  function PublishedCount(forms: seq<Form>): (r: nat)
    ensures r <= |forms|
  {
    if |forms| == 0 then 0 else (if forms[0].isPublished then 1 else 0) + PublishedCount(forms[1..])
  }

  /** `publishedFormCount`. */
  function PublishedFormCount(ed: Editor): (r: nat)
    ensures r <= FormCount(ed)
  {
    PublishedCount(ed.forms)
  }

  lemma {:induction false} PublishedCountSplit(a: seq<Form>, b: seq<Form>)
    ensures PublishedCount(a + b) == PublishedCount(a) + PublishedCount(b)
  {
    if |a| > 0 {
      PublishedCountSplit(a[1..], b);
      assert (a + b)[0] == a[0];
      assert (a + b)[1..] == a[1..] + b;
    } else {
      assert a + b == b;
    }
  }

  /**
   * Replacing a listed form keeps the form count, and moves the published
   * count by one exactly when the replaced row and the new row differ in
   * being published.
   */
  lemma ReplaceKeepsCounts(forms: seq<Form>, id: string, data: Form)
    ensures |ReplaceFirstForm(forms, id, data)| == |forms|
    ensures IndexOfForm(forms, id).Some? ==>
      PublishedCount(ReplaceFirstForm(forms, id, data)) + (if forms[IndexOfForm(forms, id).value].isPublished then 1 else 0)
        == PublishedCount(forms) + (if data.isPublished then 1 else 0)
    ensures IndexOfForm(forms, id).None? ==> PublishedCount(ReplaceFirstForm(forms, id, data)) == PublishedCount(forms)
  {
    if IndexOfForm(forms, id).Some? {
      var k := IndexOfForm(forms, id).value;
      var r := ReplaceFirstForm(forms, id, data);
      assert forms == forms[..k] + [forms[k]] + forms[k + 1..];
      assert r == forms[..k] + [data] + forms[k + 1..];
      PublishedCountSplit(forms[..k] + [forms[k]], forms[k + 1..]);
      PublishedCountSplit(forms[..k], [forms[k]]);
      PublishedCountSplit(forms[..k] + [data], forms[k + 1..]);
      PublishedCountSplit(forms[..k], [data]);
    }
  }
}
