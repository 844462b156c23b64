/**
 * Session lookups of the chat engine: finding or creating a respondent's
 * in-progress session, and moving its `current_step` pointer along the
 * fields of the form ordered by `order_idx`.
 */
module SessionManager {
  import opened Wrappers
  import opened Records
  import Sorting

  /** In-progress rows of one phone, in table order. */
  function InProgressOf(responses: seq<Session>, phone: string): (r: seq<Session>)
    ensures forall s :: s in r <==> s in responses && s.phone == phone && s.status == InProgress
  {
    if |responses| == 0 then []
    else
      var rest := InProgressOf(responses[1..], phone);
      assert forall s :: s in responses <==> s == responses[0] || s in responses[1..];
      var s := responses[0];
      if s.phone == phone && s.status == InProgress then [s] + rest else rest
  }

  /** In-progress rows of one (form, phone) pair, in table order. */
  function InProgressFor(responses: seq<Session>, formId: string, phone: string): (r: seq<Session>)
    ensures forall s :: s in r <==> s in responses && s.formId == formId && s.phone == phone && s.status == InProgress
  {
    if |responses| == 0 then []
    else
      var rest := InProgressFor(responses[1..], formId, phone);
      assert forall s :: s in responses <==> s == responses[0] || s in responses[1..];
      var s := responses[0];
      if s.formId == formId && s.phone == phone && s.status == InProgress then [s] + rest else rest
  }

  function NegLastActivity(s: Session): int { -s.lastActivityAt }

  function NegCreatedAt(s: Session): int { -s.createdAt }

  /**
   * `getSessionByPhone` (and the engine's `findActiveSession`): the phone's
   * in-progress session with the latest `last_activity_at`, whatever its form.
   */
  function ActiveSession(responses: seq<Session>, phone: string): (r: Option<Session>)
    ensures r.None? <==> forall s :: s in responses ==> !(s.phone == phone && s.status == InProgress)
    ensures r.Some? ==> r.value in responses && r.value.phone == phone && r.value.status == InProgress
    ensures r.Some? ==> forall s :: s in responses && s.phone == phone && s.status == InProgress ==>
      s.lastActivityAt <= r.value.lastActivityAt
  {
    var candidates := InProgressOf(responses, phone);
    var sorted := Sorting.SortBy(candidates, NegLastActivity);
    if |candidates| == 0 then
      None
    else
      assert candidates[0] in candidates;
      Sorting.FirstIsLeast(candidates, NegLastActivity, candidates[0]);
      Sorting.SortBySameRows(candidates, NegLastActivity, sorted[0]);
      assert forall s :: s in candidates ==> s.lastActivityAt <= sorted[0].lastActivityAt by {
        forall s | s in candidates ensures s.lastActivityAt <= sorted[0].lastActivityAt {
          Sorting.FirstIsLeast(candidates, NegLastActivity, s);
        }
      }
      Some(sorted[0])
  }

  datatype SessionLookup = SessionLookup(session: Session, isNew: bool)

  /** The row the server inserts for a new WhatsApp session. */
  function NewSession(id: nat, formId: string, phone: string, contactName: Option<string>, version: int, now: int): Session {
    Session(id, formId, phone, contactName, InProgress, "whatsapp", version, None, now, now, now, None, None)
  }

  /**
   * `getOrCreateSession`: the newest (by `created_at`) in-progress session of
   * the pair, or a freshly inserted one with version 1.
   */
  function GetOrCreateSession(store: Store, formId: string, phone: string, contactName: Option<string>, now: int): (r: (Store, SessionLookup))
    ensures var (st, found) := r;
      found.isNew <==> forall s :: s in store.responses ==> !(s.formId == formId && s.phone == phone && s.status == InProgress)
    ensures var (st, found) := r;
      !found.isNew ==> (st == store && found.session in store.responses
        && found.session.formId == formId && found.session.phone == phone && found.session.status == InProgress
        && forall s :: s in store.responses && s.formId == formId && s.phone == phone && s.status == InProgress ==>
             s.createdAt <= found.session.createdAt)
    ensures var (st, found) := r;
      found.isNew ==> (st == store.(responses := store.responses + [found.session])
        && found.session == NewSession(found.session.id, formId, phone, contactName, 1, now)
        && forall s :: s in store.responses ==> s.id < found.session.id)
  {
    var candidates := InProgressFor(store.responses, formId, phone);
    if |candidates| == 0 then
      var s := NewSession(NextSessionId(store.responses), formId, phone, contactName, 1, now);
      (store.(responses := store.responses + [s]), SessionLookup(s, true))
    else
      var sorted := Sorting.SortBy(candidates, NegCreatedAt);
      assert candidates[0] in candidates;
      Sorting.FirstIsLeast(candidates, NegCreatedAt, candidates[0]);
      Sorting.SortBySameRows(candidates, NegCreatedAt, sorted[0]);
      assert forall s :: s in candidates ==> s.createdAt <= sorted[0].createdAt by {
        forall s | s in candidates ensures s.createdAt <= sorted[0].createdAt {
          Sorting.FirstIsLeast(candidates, NegCreatedAt, s);
        }
      }
      (store, SessionLookup(sorted[0], false))
  }

  /** `getFormFields`: the form's fields by ascending `order_idx`. */
  function GetFormFields(store: Store, formId: string): (r: seq<Field>)
    ensures Sorting.SortedBy(r, OrderIdx)
    ensures forall f :: f in r <==> f in store.fields && f.formId == formId
  {
    FormFields(store.fields, formId)
  }

  /** `getFirstField`: the field with the lowest `order_idx`, or 'Form has no fields'. */
  function GetFirstField(store: Store, formId: string): (r: Result<Field>)
    ensures r.Err? <==> forall f :: f in store.fields ==> f.formId != formId
    ensures r.Err? ==> r.error == "Form has no fields"
    ensures r.Ok? ==> (r.value in store.fields && r.value.formId == formId
      && forall f :: f in store.fields && f.formId == formId ==> r.value.orderIdx <= f.orderIdx)
  {
    var fields := GetFormFields(store, formId);
    if |fields| == 0 then Err("Form has no fields")
    else
      assert fields[0] in fields;
      assert forall f :: f in fields ==> fields[0].orderIdx <= f.orderIdx by {
        forall f | f in fields ensures fields[0].orderIdx <= f.orderIdx {
          var k :| 0 <= k < |fields| && fields[k] == f;
          if k > 0 {
            assert OrderIdx(fields[0]) <= OrderIdx(fields[k]);
          }
        }
      }
      Ok(fields[0])
  }

  /** Rows of `form_fields` with the given id. */
  function FieldsWithId(fields: seq<Field>, id: string): (r: seq<Field>)
    ensures forall f :: f in r <==> f in fields && f.id == id
  {
    if |fields| == 0 then []
    else
      var rest := FieldsWithId(fields[1..], id);
      assert forall f :: f in fields <==> f == fields[0] || f in fields[1..];
      if fields[0].id == id then [fields[0]] + rest else rest
  }

  /** `!session.current_step`: no pointer, or an empty one. */
  predicate NoStep(step: Option<string>) {
    step.None? || step.value == ""
  }

  /**
   * `getCurrentField`: the field named by the session's `current_step`, with
   * the session's form id; the three failures in the order they are checked.
   */
  function GetCurrentField(store: Store, responseId: nat): (r: Result<(Field, string)>)
    ensures SessionById(store.responses, responseId).None? ==> r == Err("Session not found")
    ensures SessionById(store.responses, responseId).Some? && NoStep(SessionById(store.responses, responseId).value.currentStep)
      ==> r == Err("No current step set")
    ensures r.Ok? ==> var s := SessionById(store.responses, responseId).value;
      s.currentStep == Some(r.value.0.id) && r.value.0 in store.fields && r.value.1 == s.formId
    ensures r.Err? ==> r.error in {"Session not found", "No current step set", "Current field not found"}
    ensures SessionById(store.responses, responseId).Some? && !NoStep(SessionById(store.responses, responseId).value.currentStep) ==>
      var fields := FieldsWithId(store.fields, SessionById(store.responses, responseId).value.currentStep.value);
      && (r.Ok? <==> |fields| == 1)
      && (r.Ok? ==> r.value.0 == fields[0])
      && (r.Err? ==> r == Err("Current field not found"))
  {
    match SessionById(store.responses, responseId)
    case None => Err("Session not found")
    case Some(s) =>
      if NoStep(s.currentStep) then Err("No current step set")
      else
        match Single(FieldsWithId(store.fields, s.currentStep.value))
        case None => Err("Current field not found")
        case Some(f) => Ok((f, s.formId))
  }

  /** The error `setCurrentStep` throws when `.single()` finds no row to update. */
  const SetStepError := "Failed to set current step: " + NotSingleError

  /**
   * `setCurrentStep`: fails, with the `.single()` message appended, exactly
   * when no row has the id; otherwise the pointer and both activity stamps
   * of that row change, nothing else.
   */
  function SetCurrentStep(store: Store, responseId: nat, fieldId: string, now: int): (r: Result<Store>)
    ensures SessionById(store.responses, responseId).None? <==> r.Err?
    ensures r.Err? ==> r.error == SetStepError
    ensures r.Ok? ==> var s := SessionById(store.responses, responseId).value;
      r.value == store.(responses := ReplaceSession(store.responses,
        s.(currentStep := Some(fieldId), updatedAt := now, lastActivityAt := now)))
  {
    match SessionById(store.responses, responseId)
    case None => Err(SetStepError)
    case Some(s) =>
      Ok(store.(responses := ReplaceSession(store.responses, s.(currentStep := Some(fieldId), updatedAt := now, lastActivityAt := now))))
  }

  /**
   * `initializeSession`: point the session at the form's first field.  It
   * succeeds exactly when the form has a field and the session exists;
   * only that session's row changes, and only in its pointer and stamps.
   */
  function InitializeSession(store: Store, responseId: nat, formId: string, now: int): (r: Result<(Store, Field)>)
    requires UniqueIds(store.responses)
    ensures GetFirstField(store, formId).Err? ==> r == Err("Form has no fields")
    ensures GetFirstField(store, formId).Ok? && SessionById(store.responses, responseId).None? ==> r == Err(SetStepError)
    ensures r.Ok? <==> GetFirstField(store, formId).Ok? && SessionById(store.responses, responseId).Some?
    ensures r.Ok? ==> (r.value.1 == GetFirstField(store, formId).value
      && SessionById(r.value.0.responses, responseId).Some?
      && SessionById(r.value.0.responses, responseId).value.currentStep == Some(r.value.1.id))
    ensures r.Ok? ==> var s := SessionById(store.responses, responseId).value;
      && r.value.0 == store.(responses := r.value.0.responses)
      && UniqueIds(r.value.0.responses)
      && |r.value.0.responses| == |store.responses|
      && (forall k :: 0 <= k < |store.responses| && store.responses[k].id != responseId ==>
            r.value.0.responses[k] == store.responses[k])
      && SessionById(r.value.0.responses, responseId).value
           == s.(currentStep := Some(r.value.1.id), updatedAt := now, lastActivityAt := now)
  {
    match GetFirstField(store, formId)
    case Err(e) => Err(e)
    case Ok(first) =>
      match SetCurrentStep(store, responseId, first.id, now)
      case Err(e) => Err(e)
      case Ok(st) =>
        var s := SessionById(store.responses, responseId).value;
        ReplaceKeepsIds(store.responses, s.(currentStep := Some(first.id), updatedAt := now, lastActivityAt := now));
        Ok((st, first))
  }

  /** A table whose field ids are distinct and non-empty, as primary keys are. */
  predicate FieldKeys(fields: seq<Field>) {
    && (forall i, j :: 0 <= i < j < |fields| ==> fields[i].id != fields[j].id)
    && (forall k :: 0 <= k < |fields| ==> fields[k].id != "")
  }

  /** No row carries the id, so none is found. */
  lemma {:induction false} NoRowWithId(fields: seq<Field>, id: string)
    requires forall k :: 0 <= k < |fields| ==> fields[k].id != id
    ensures FieldsWithId(fields, id) == []
  {
    if |fields| > 0 {
      NoRowWithId(fields[1..], id);
    }
  }

  /** With distinct ids, the rows carrying a field's id are that field alone. */
  lemma {:induction false} OnlyRowWithId(fields: seq<Field>, k: nat)
    requires k < |fields|
    requires forall i, j :: 0 <= i < j < |fields| ==> fields[i].id != fields[j].id
    ensures FieldsWithId(fields, fields[k].id) == [fields[k]]
  {
    var rest := FieldsWithId(fields[1..], fields[k].id);
    assert forall i, j :: 0 <= i < j < |fields[1..]| ==> fields[1..][i].id != fields[1..][j].id by {
      forall i, j | 0 <= i < j < |fields[1..]| ensures fields[1..][i].id != fields[1..][j].id {
        assert fields[1..][i] == fields[i + 1] && fields[1..][j] == fields[j + 1];
      }
    }
    if k == 0 {
      NoRowWithId(fields[1..], fields[0].id);
    } else {
      assert fields[0].id != fields[k].id;
      assert fields[1..][k - 1] == fields[k];
      OnlyRowWithId(fields[1..], k - 1);
    }
  }

  /**
   * Initialising a session is what `getCurrentField` then reads back: the
   * form's first field, with the session's form id.
   */
  lemma InitializeThenCurrentField(store: Store, responseId: nat, formId: string, now: int)
    requires UniqueIds(store.responses) && FieldKeys(store.fields)
    requires InitializeSession(store, responseId, formId, now).Ok?
    ensures var r := InitializeSession(store, responseId, formId, now).value;
      GetCurrentField(r.0, responseId) == Ok((r.1, SessionById(store.responses, responseId).value.formId))
  {
    var r := InitializeSession(store, responseId, formId, now).value;
    var first := r.1;
    assert first in store.fields;
    var k :| 0 <= k < |store.fields| && store.fields[k] == first;
    OnlyRowWithId(store.fields, k);
    assert r.0.fields == store.fields;
  }

  datatype NextField = CurrentNotFound | Complete | Next(field: Field)

  /**
   * `getNextField`: the field after the session's current one in `allFields`;
   * a missing session is the TypeError of reading `current_step` of null.
   */
  function GetNextField(store: Store, responseId: nat, allFields: seq<Field>): (r: Result<NextField>)
    ensures SessionById(store.responses, responseId).None? <==> r.Err?
    ensures r.Ok? ==> var step := SessionById(store.responses, responseId).value.currentStep;
      && (r.value == CurrentNotFound <==> (step.None? || forall k :: 0 <= k < |allFields| ==> allFields[k].id != step.value))
      && (r.value == Complete ==> step.Some? && |allFields| > 0 && allFields[|allFields| - 1].id == step.value)
      && (r.value.Next? ==> exists i :: (0 <= i < |allFields| - 1 && allFields[i].id == step.value
            && r.value.field == allFields[i + 1]))
  {
    match SessionById(store.responses, responseId)
    case None => Err("TypeError")
    case Some(s) =>
      if s.currentStep.None? then Ok(CurrentNotFound)
      else
        match IndexOfField(allFields, s.currentStep.value)
        case None => Ok(CurrentNotFound)
        case Some(i) => if i + 1 >= |allFields| then Ok(Complete) else Ok(Next(allFields[i + 1]))
  }
}
