/**
 * The client-side form store of `stores/forms.ts`: the owner's list of
 * forms, the selection, the form open in the builder with its fields, and
 * the builder's UI flags.  Loading from the database is left out; each
 * action returns the next state.
 */
module FormStore {
  import opened Wrappers
  import opened Records
  import Js
  import UseForms

  /** A form with its fields, as opened in the builder. */
  datatype Opened = Opened(form: Form, fields: seq<Field>)

  datatype State = State(
    selectedFormId: Option<string>,
    builderOpen: bool,
    editingFieldId: Option<string>,
    previewMode: bool,
    sidebarOpen: bool,
    forms: seq<Form>,
    current: Option<Opened>)

  /** The state the store is created in: only the sidebar starts open. */
  function Initial(): State {
    State(None, false, None, false, true, [], None)
  }

  // ------------------------------------------------------------ selection

  /** What `selectedForm` yields: a listed form (if found) or the opened one. */
  datatype Selection = Listed(listed: Option<Form>) | Open(open: Option<Opened>)

  /** `forms.find(f => f.id === id)` */
  function FindForm(forms: seq<Form>, id: string): (r: Option<Form>)
    ensures r.None? <==> forall k :: 0 <= k < |forms| ==> forms[k].id != id
    ensures r.Some? ==> r.value in forms && r.value.id == id
    ensures r.Some? ==> exists k :: 0 <= k < |forms| && forms[k] == r.value && forall j :: 0 <= j < k ==> forms[j].id != id
  {
    match UseForms.IndexOfForm(forms, id)
    case None => None
    case Some(k) => Some(forms[k])
  }

  /**
   * `selectedForm`: with a selected id, the first listed form with that id
   * (none when it is not listed); without one, the opened form.
   */
  function SelectedForm(st: State): (r: Selection)
    ensures Js.Truthy(st.selectedFormId) ==> r.Listed? && r.listed == FindForm(st.forms, st.selectedFormId.value)
    ensures !Js.Truthy(st.selectedFormId) ==> r == Open(st.current)
  {
    if Js.Truthy(st.selectedFormId) then Listed(FindForm(st.forms, st.selectedFormId.value)) else Open(st.current)
  }

  /** `isEditing`: a field id is being edited. */
  predicate IsEditing(st: State) {
    Js.Truthy(st.editingFieldId)
  }

  // ------------------------------------------------------------ totals

  /** `draftForms`; `publishedForms` is the builder's `UseForms.PublishedCount`. */
  function Drafts(forms: seq<Form>): (r: nat)
    ensures r <= |forms|
  {
    if |forms| == 0 then 0 else (if !forms[0].isPublished then 1 else 0) + Drafts(forms[1..])
  }

  /** Every form is either published or a draft: `publishedForms + draftForms == totalForms`. */
  lemma {:induction false} PublishedPlusDrafts(forms: seq<Form>)
    ensures UseForms.PublishedCount(forms) + Drafts(forms) == |forms|
  {
    if |forms| > 0 {
      PublishedPlusDrafts(forms[1..]);
    }
  }

  // ------------------------------------------------------------ list actions

  /**
   * `updateFormInList`: the first listed form with the id is replaced, and
   * the opened form takes the new columns while keeping its fields.
   */
  function UpdateFormInList(st: State, form: Form): (r: State)
    ensures |r.forms| == |st.forms|
    ensures forall k :: 0 <= k < |st.forms| ==>
      r.forms[k] == (if UseForms.IndexOfForm(st.forms, form.id) == Some(k) then form else st.forms[k])
    ensures st.current.Some? && st.current.value.form.id == form.id ==> r.current == Some(Opened(form, st.current.value.fields))
    ensures !(st.current.Some? && st.current.value.form.id == form.id) ==> r.current == st.current
    ensures r.selectedFormId == st.selectedFormId && r.sidebarOpen == st.sidebarOpen
  {
    var current :=
      if st.current.Some? && st.current.value.form.id == form.id then Some(st.current.value.(form := form))
      else st.current;
    st.(forms := UseForms.ReplaceFirstForm(st.forms, form.id, form), current := current)
  }

  /** `addFormToList`: `unshift`, so the new form comes first. */
  function AddFormToList(st: State, form: Form): (r: State)
    ensures |r.forms| == |st.forms| + 1 && r.forms[0] == form
    ensures forall k :: 0 <= k < |st.forms| ==> r.forms[k + 1] == st.forms[k]
  {
    st.(forms := [form] + st.forms)
  }

  /**
   * `removeFromList`: every form with the id leaves the list and the others
   * keep their order; when that form was selected, the selection and the
   * opened form are cleared too.
   */
  function RemoveFromList(st: State, formId: string): (r: State)
    ensures r.forms == Without(st.forms, IdOfForm, formId)
    ensures forall f :: f in r.forms <==> f in st.forms && f.id != formId
    ensures st.selectedFormId == Some(formId) ==> r.selectedFormId.None? && r.current.None?
    ensures st.selectedFormId != Some(formId) ==> r.selectedFormId == st.selectedFormId && r.current == st.current
  {
    var cleared := st.selectedFormId == Some(formId);
    WithoutCounts(st.forms, IdOfForm, formId);
    st.(
      forms := Without(st.forms, IdOfForm, formId),
      selectedFormId := if cleared then None else st.selectedFormId,
      current := if cleared then None else st.current)
  }

  /**
   * Adding a form raises the total by one and exactly one of the published
   * and draft counts, makes it the form a selection of its id finds, and
   * removing its id afterwards leaves the same list as removing it before.
   */
  lemma AddFormEffects(st: State, form: Form)
    ensures var added := AddFormToList(st, form);
      && UseForms.PublishedCount(added.forms) == UseForms.PublishedCount(st.forms) + (if form.isPublished then 1 else 0)
      && Drafts(added.forms) == Drafts(st.forms) + (if form.isPublished then 0 else 1)
      && FindForm(added.forms, form.id) == Some(form)
      && RemoveFromList(added, form.id).forms == RemoveFromList(st, form.id).forms
  {
    var added := AddFormToList(st, form);
    assert added.forms[1..] == st.forms;
  }

  /**
   * Removing the selected form leaves nothing selected and nothing open;
   * removing any other id keeps what is selected.
   */
  lemma RemoveSelection(st: State, formId: string)
    ensures st.selectedFormId == Some(formId) ==> SelectedForm(RemoveFromList(st, formId)) == Open(None)
    ensures Js.Truthy(st.selectedFormId) && st.selectedFormId != Some(formId) ==>
      SelectedForm(RemoveFromList(st, formId)) == Listed(FindForm(RemoveFromList(st, formId).forms, st.selectedFormId.value))
    ensures Js.Truthy(st.selectedFormId) && st.selectedFormId != Some(formId) && FindForm(st.forms, st.selectedFormId.value).Some? ==>
      FindForm(RemoveFromList(st, formId).forms, st.selectedFormId.value).Some?
  {
    if Js.Truthy(st.selectedFormId) && st.selectedFormId != Some(formId) && FindForm(st.forms, st.selectedFormId.value).Some? {
      var f := FindForm(st.forms, st.selectedFormId.value).value;
      assert f in RemoveFromList(st, formId).forms;
      var rest := RemoveFromList(st, formId).forms;
      var k :| 0 <= k < |rest| && rest[k] == f;
    }
  }

  // ------------------------------------------------------------ reset

  /** `reset`: back to the initial state, except that the sidebar keeps its setting. */
  function Reset(st: State): (r: State)
    ensures r.sidebarOpen == st.sidebarOpen
    ensures r.forms == [] && r.current.None? && r.selectedFormId.None?
    ensures !r.builderOpen && r.editingFieldId.None? && !r.previewMode
  {
    State(None, false, None, false, st.sidebarOpen, [], None)
  }

  /**
   * A reset store differs from a new one at most in the sidebar flag,
   * resetting twice is resetting once, and a reset store counts no forms,
   * selects nothing and edits nothing.
   */
  lemma ResetKeepsSidebar(st: State)
    ensures Reset(st) == Initial().(sidebarOpen := st.sidebarOpen)
    ensures Reset(Reset(st)) == Reset(st)
    ensures UseForms.PublishedCount(Reset(st).forms) == 0 && Drafts(Reset(st).forms) == 0
    ensures SelectedForm(Reset(st)) == Open(None) && !IsEditing(Reset(st))
  {
  }
}
