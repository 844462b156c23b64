/**
 * Properties of the conversational engine: routing, what a rejected or
 * accepted answer does to the store, the forward-only pointer, completion,
 * the store invariants every step keeps, and the consequence of the start
 * path never setting `current_step`.
 */
module EngineProperties {
  import opened Wrappers
  import opened Text
  import opened Records
  import opened Payload
  import SessionManager
  import opened MessageProcessor

  /** At most one in-progress row per (form, phone) pair. */
  predicate SinglePerPair(rs: seq<Session>) {
    forall i, j :: 0 <= i < j < |rs| && rs[i].status == InProgress && rs[j].status == InProgress ==>
      rs[i].formId != rs[j].formId || rs[i].phone != rs[j].phone
  }

  /** The store invariants: unique response ids, and at most one in-progress session per pair. */
  predicate WellFormed(store: Store) {
    UniqueIds(store.responses) && SinglePerPair(store.responses)
  }

  /** `s` may replace the row carrying its id: same pair, and in progress only if that row was. */
  predicate CompatibleUpdate(rs: seq<Session>, s: Session) {
    forall k :: 0 <= k < |rs| && rs[k].id == s.id ==>
      rs[k].formId == s.formId && rs[k].phone == s.phone && (s.status == InProgress ==> rs[k].status == InProgress)
  }

  lemma ReplacePreserves(rs: seq<Session>, s: Session)
    requires UniqueIds(rs) && SinglePerPair(rs) && CompatibleUpdate(rs, s)
    ensures UniqueIds(ReplaceSession(rs, s)) && SinglePerPair(ReplaceSession(rs, s))
  {
    ReplaceKeepsIds(rs, s);
    var r := ReplaceSession(rs, s);
    forall i, j | 0 <= i < j < |r| && r[i].status == InProgress && r[j].status == InProgress
      ensures r[i].formId != r[j].formId || r[i].phone != r[j].phone
    {
      assert rs[i].status == InProgress && rs[j].status == InProgress;
      assert r[i].formId == rs[i].formId && r[i].phone == rs[i].phone;
      assert r[j].formId == rs[j].formId && r[j].phone == rs[j].phone;
    }
  }

  lemma AppendPreserves(rs: seq<Session>, s: Session)
    requires UniqueIds(rs) && SinglePerPair(rs)
    requires forall t :: t in rs ==> t.id < s.id
    requires s.status == InProgress ==> forall t :: t in rs ==> !(t.formId == s.formId && t.phone == s.phone && t.status == InProgress)
    ensures UniqueIds(rs + [s]) && SinglePerPair(rs + [s])
  {
    var r := rs + [s];
    forall i, j | 0 <= i < j < |r| ensures r[i].id != r[j].id {
      if j == |rs| {
        assert r[i] in rs;
      }
    }
    forall i, j | 0 <= i < j < |r| && r[i].status == InProgress && r[j].status == InProgress
      ensures r[i].formId != r[j].formId || r[i].phone != r[j].phone
    {
      if j == |rs| {
        assert r[i] in rs;
      }
    }
  }

  /** The row found by id can be rewritten by any update that keeps its pair and does not reopen it. */
  lemma FoundRowCompatible(rs: seq<Session>, id: nat, s: Session)
    requires UniqueIds(rs) && SessionById(rs, id).Some?
    requires var t := SessionById(rs, id).value;
      s.id == t.id && s.formId == t.formId && s.phone == t.phone && (s.status == InProgress ==> t.status == InProgress)
    ensures CompatibleUpdate(rs, s)
  {
    var t := SessionById(rs, id).value;
    forall k | 0 <= k < |rs| && rs[k].id == s.id
      ensures rs[k].formId == s.formId && rs[k].phone == s.phone && (s.status == InProgress ==> rs[k].status == InProgress)
    {
      FoundById(rs, id, k);
    }
  }

  /** Answer-path steps keep the store well formed. */
  lemma ResponseKeepsWellFormed(store: Store, session: Session, m: Inbound, now: int)
    requires WellFormed(store)
    ensures WellFormed(HandleFormResponse(store, session, m, now).store)
  {
    match SessionById(store.responses, session.id)
    case None =>
    case Some(response) =>
      var done := CompleteSession(response, now);
      FoundRowCompatible(store.responses, session.id, done);
      ReplacePreserves(store.responses, done);
      var fields := FormFields(store.fields, response.formId);
      var idx := if response.currentStep.None? then None else IndexOfField(fields, response.currentStep.value);
      if idx.Some? && idx.value + 1 < |fields| {
        var moved := MoveStep(response, fields[idx.value + 1].id, now);
        FoundRowCompatible(store.responses, session.id, moved);
        ReplacePreserves(store.responses, moved);
      }
  }

  /** The start path keeps the store well formed: it inserts only when the pair has no in-progress row. */
  lemma StartKeepsWellFormed(store: Store, m: Inbound, now: int)
    requires WellFormed(store)
    ensures WellFormed(HandleFormStart(store, m, now).store)
  {
    var key := SplitSecond(m.text);
    if key.Some? && key.value != "" && Single(PublishedWithKey(store.forms, key.value)).Some? {
      var form := Single(PublishedWithKey(store.forms, key.value)).value;
      var existing := First(SessionManager.InProgressFor(store.responses, form.id, m.from));
      if existing.None? {
        var s := SessionManager.NewSession(NextSessionId(store.responses), form.id, m.from, m.contactName, FlowVersion(form), now);
        AppendPreserves(store.responses, s);
      }
    }
  }

  /** Every step of the engine as written keeps the store well formed. */
  lemma ProcessKeepsWellFormed(store: Store, m: Inbound, now: int)
    requires WellFormed(store)
    ensures WellFormed(ProcessMessage(store, m, now).store)
  {
    if StartsWith(m.text, "START:") {
      StartKeepsWellFormed(store, m, now);
    } else if SessionManager.ActiveSession(store.responses, m.from).Some? {
      ResponseKeepsWellFormed(store, SessionManager.ActiveSession(store.responses, m.from).value, m, now);
    }
  }

  /** A text that is not a start command, from a phone with no in-progress session, gets the link reply and writes nothing. */
  lemma NoSessionReply(store: Store, m: Inbound, now: int)
    requires !StartsWith(m.text, "START:")
    requires forall s :: s in store.responses ==> !(s.phone == m.from && s.status == InProgress)
    ensures ProcessMessage(store, m, now) == Step(store, [TextOut(m.from, LinkReply)], Ok(NoSession))
  {
  }

  /**
   * Any other text is handled as an answer for the phone's in-progress
   * session with the latest activity, whatever form that session belongs to.
   */
  lemma ContinuationTarget(store: Store, m: Inbound, now: int)
    requires !StartsWith(m.text, "START:")
    requires exists s :: s in store.responses && s.phone == m.from && s.status == InProgress
    ensures exists s :: (s in store.responses && s.phone == m.from && s.status == InProgress
      && (forall t :: t in store.responses && t.phone == m.from && t.status == InProgress ==> t.lastActivityAt <= s.lastActivityAt)
      && ProcessMessage(store, m, now) == HandleFormResponse(store, s, m, now))
  {
    var s := SessionManager.ActiveSession(store.responses, m.from).value;
    assert ProcessMessage(store, m, now) == HandleFormResponse(store, s, m, now);
  }

  /** The field a session's current step names among its form's fields, if any. */
  function CurrentIndex(store: Store, response: Session): Option<nat> {
    var fields := FormFields(store.fields, response.formId);
    if response.currentStep.None? then None else IndexOfField(fields, response.currentStep.value)
  }

  /** A current step naming no field of the form (as after a start) fails with 'Field not found', the apology, and no write. */
  lemma UnknownStepFails(store: Store, session: Session, m: Inbound, now: int)
    requires SessionById(store.responses, session.id).Some?
    requires CurrentIndex(store, SessionById(store.responses, session.id).value).None?
    ensures HandleFormResponse(store, session, m, now) == Step(store, [TextOut(m.from, ResponseApology)], Err("Field not found"))
  {
  }

  /** A step that succeeds found the session and the field its current step names. */
  lemma OkAtKnownField(store: Store, session: Session, m: Inbound, now: int)
    requires HandleFormResponse(store, session, m, now).result.Ok?
    ensures SessionById(store.responses, session.id).Some?
    ensures CurrentIndex(store, SessionById(store.responses, session.id).value).Some?
  {
  }

  /** With the session and its field found, the step is the answer to that field. */
  lemma KnownFieldAnswer(store: Store, session: Session, m: Inbound, now: int)
    requires SessionById(store.responses, session.id).Some?
    requires CurrentIndex(store, SessionById(store.responses, session.id).value).Some?
    ensures var response := SessionById(store.responses, session.id).value;
      var fields := FormFields(store.fields, response.formId);
      var i := CurrentIndex(store, response).value;
      && i < |fields|
      && HandleFormResponse(store, session, m, now) == AnswerField(store, session.id, response, fields, i, m, now)
  {
  }

  /** A rejected answer sends only the error text and leaves answers and pointer untouched. */
  lemma RejectionChangesNothing(store: Store, session: Session, m: Inbound, now: int)
    requires HandleFormResponse(store, session, m, now).result == Ok(Rejected)
    ensures HandleFormResponse(store, session, m, now).store == store
    ensures HandleFormResponse(store, session, m, now).sent == [TextOut(m.from, RequiredError)]
         || HandleFormResponse(store, session, m, now).sent == [TextOut(m.from, InvalidResponse)]
  {
    OkAtKnownField(store, session, m, now);
    KnownFieldAnswer(store, session, m, now);
    var response := SessionById(store.responses, session.id).value;
    RejectedAnswer(store, session.id, response, FormFields(store.fields, response.formId), CurrentIndex(store, response).value, m, now);
  }

  /** A rejected answer to the i-th field changes no table and sends one of the two rejection texts. */
  lemma RejectedAnswer(store: Store, sessionId: nat, response: Session, fields: seq<Field>, i: nat, m: Inbound, now: int)
    requires i < |fields| && AnswerField(store, sessionId, response, fields, i, m, now).result == Ok(Rejected)
    ensures var after := AnswerField(store, sessionId, response, fields, i, m, now);
      && after.store == store
      && (after.sent == [TextOut(m.from, RequiredError)] || after.sent == [TextOut(m.from, InvalidResponse)])
  {
  }

  /**
   * An answer is rejected exactly when the current field has no `meta`, or
   * requires a value and the answer is empty.
   */
  lemma RejectedIff(store: Store, session: Session, m: Inbound, now: int)
    requires SessionById(store.responses, session.id).Some?
    requires CurrentIndex(store, SessionById(store.responses, session.id).value).Some?
    ensures var response := SessionById(store.responses, session.id).value;
      var field := FormFields(store.fields, response.formId)[CurrentIndex(store, response).value];
      var rejected := HandleFormResponse(store, session, m, now).result == Ok(Rejected);
      rejected <==> field.meta.None? || (field.meta.value.requiredRule && AnswerValue(m) == "")
  {
    KnownFieldAnswer(store, session, m, now);
  }

  /**
   * Accepting an answer for a field that is not the last one appends one
   * answer row for (session, field), moves the pointer to the next field by
   * `order_idx` (never to an earlier one) and prompts it as question i+2.
   */
  lemma AdvanceMovesForward(store: Store, session: Session, m: Inbound, now: int)
    requires WellFormed(store)
    requires HandleFormResponse(store, session, m, now).result == Ok(Advanced)
    ensures match SessionById(store.responses, session.id)
      case None => false
      case Some(response) =>
        match CurrentIndex(store, response)
        case None => false
        case Some(i) =>
          var fields := FormFields(store.fields, response.formId);
          var after := HandleFormResponse(store, session, m, now);
          && i + 1 < |fields|
          && after.store.values == store.values + [ValueRow(NextValueId(store.values), session.id, fields[i].id, AnswerValue(m), now)]
          && SessionById(after.store.responses, session.id) == Some(response.(currentStep := Some(fields[i + 1].id), lastActivityAt := now))
          && fields[i].orderIdx <= fields[i + 1].orderIdx
          && FieldPrompt(m.from, fields[i + 1], i + 2, |fields|).Ok?
          && after.sent == [FieldPrompt(m.from, fields[i + 1], i + 2, |fields|).value]
  {
    OkAtKnownField(store, session, m, now);
    KnownFieldAnswer(store, session, m, now);
    var response := SessionById(store.responses, session.id).value;
    var fields := FormFields(store.fields, response.formId);
    var i := CurrentIndex(store, response).value;
    AdvancedAnswer(store, session.id, response, fields, i, m, now);
    var moved := MoveStep(response, fields[i + 1].id, now);
    ReplaceKeepsIds(store.responses, moved);
    assert OrderIdx(fields[i]) <= OrderIdx(fields[i + 1]);
  }

  /** An advancing answer to the i-th field: its row is written, the pointer moves to field i+1, which is prompted. */
  lemma AdvancedAnswer(store: Store, sessionId: nat, response: Session, fields: seq<Field>, i: nat, m: Inbound, now: int)
    requires i < |fields| && AnswerField(store, sessionId, response, fields, i, m, now).result == Ok(Advanced)
    ensures var after := AnswerField(store, sessionId, response, fields, i, m, now);
      && i + 1 < |fields|
      && after.store.values == store.values + [ValueRow(NextValueId(store.values), sessionId, fields[i].id, AnswerValue(m), now)]
      && after.store.responses == ReplaceSession(store.responses, MoveStep(response, fields[i + 1].id, now))
      && FieldPrompt(m.from, fields[i + 1], i + 2, |fields|).Ok?
      && after.sent == [FieldPrompt(m.from, fields[i + 1], i + 2, |fields|).value]
  {
  }

  /**
   * Accepting the answer to the last field appends its row and completes the
   * session with the whole seconds elapsed since it was created.
   */
  lemma CompletionRecordsDuration(store: Store, session: Session, m: Inbound, now: int)
    requires WellFormed(store)
    requires HandleFormResponse(store, session, m, now).result == Ok(FormCompleted)
    ensures SessionById(store.responses, session.id).Some?
    ensures CurrentIndex(store, SessionById(store.responses, session.id).value).Some?
    ensures var response := SessionById(store.responses, session.id).value;
      var fields := FormFields(store.fields, response.formId);
      var i := CurrentIndex(store, response).value;
      var after := HandleFormResponse(store, session, m, now);
      var done := SessionById(after.store.responses, session.id);
      && i == |fields| - 1
      && after.store.values == store.values + [ValueRow(NextValueId(store.values), session.id, fields[i].id, AnswerValue(m), now)]
      && done.Some? && done.value.status == Completed && done.value.completedAt == Some(now)
      && done.value.completionTime.Some?
      && 1000 * done.value.completionTime.value <= now - response.createdAt < 1000 * (done.value.completionTime.value + 1)
      && after.sent == [TextOut(m.from, ThankYou)]
  {
    OkAtKnownField(store, session, m, now);
    KnownFieldAnswer(store, session, m, now);
    var response := SessionById(store.responses, session.id).value;
    var fields := FormFields(store.fields, response.formId);
    var i := CurrentIndex(store, response).value;
    CompletingAnswer(store, session.id, response, fields, i, m, now);
    var done := CompleteSession(response, now);
    ReplaceKeepsIds(store.responses, done);
  }

  /** A completing answer to the i-th field: it is the last, its row is written, the session completed and thanked. */
  lemma CompletingAnswer(store: Store, sessionId: nat, response: Session, fields: seq<Field>, i: nat, m: Inbound, now: int)
    requires i < |fields| && AnswerField(store, sessionId, response, fields, i, m, now).result == Ok(FormCompleted)
    ensures var after := AnswerField(store, sessionId, response, fields, i, m, now);
      && i == |fields| - 1
      && after.store.values == store.values + [ValueRow(NextValueId(store.values), sessionId, fields[i].id, AnswerValue(m), now)]
      && after.store.responses == ReplaceSession(store.responses, CompleteSession(response, now))
      && after.sent == [TextOut(m.from, ThankYou)]
  {
  }

  // ------------------------------------------------------------ the finding

  /** The session a start inserts for a pair with no in-progress row. */
  function StartedSession(store: Store, form: Form, m: Inbound, now: int): Session {
    SessionManager.NewSession(NextSessionId(store.responses), form.id, m.from, m.contactName, FlowVersion(form), now)
  }

  /**
   * A successful start, taken apart: the key names exactly one published
   * form, the pair's in-progress row is resumed or a pointerless one is
   * appended, and the only message is the prompt for the form's first field.
   */
  lemma StartParts(store: Store, m: Inbound, now: int) returns (form: Form, first: Field)
    requires HandleFormStart(store, m, now).result.Ok?
    ensures SplitSecond(m.text).Some? && SplitSecond(m.text).value != ""
    ensures Single(PublishedWithKey(store.forms, SplitSecond(m.text).value)) == Some(form)
    ensures First(FormFields(store.fields, form.id)) == Some(first) && FieldPrompt(m.from, first, 1, 1).Ok?
    ensures var after := HandleFormStart(store, m, now);
      var existing := First(SessionManager.InProgressFor(store.responses, form.id, m.from));
      && after.sent == [FieldPrompt(m.from, first, 1, 1).value]
      && (existing.Some? ==> after.store == store && after.result == Ok(Started(existing.value.id)))
      && (existing.None? ==> (after.store == store.(responses := store.responses + [StartedSession(store, form, m, now)])
            && after.result == Ok(Started(StartedSession(store, form, m, now).id))))
  {
    var key := SplitSecond(m.text);
    form := Single(PublishedWithKey(store.forms, key.value)).value;
    first := First(FormFields(store.fields, form.id)).value;
  }

  /**
   * A failed start, case by case: the apology is the only message and the
   * error is rethrown.  A missing key or a key naming no single published
   * form writes nothing; once the form is found the session row is already
   * resumed or inserted, so a form without fields, or a first field whose
   * prompt throws, leaves that row behind.
   */
  lemma StartFailures(store: Store, m: Inbound, now: int)
    ensures var key := SplitSecond(m.text);
      key.None? || key.value == "" ==>
        HandleFormStart(store, m, now) == Step(store, [TextOut(m.from, StartApology)], Err("Invalid form key"))
    ensures var key := SplitSecond(m.text);
      key.Some? && key.value != "" && |PublishedWithKey(store.forms, key.value)| != 1 ==>
        HandleFormStart(store, m, now) == Step(store, [TextOut(m.from, StartApology)], Err("Form not found"))
    ensures var key := SplitSecond(m.text);
      key.Some? && key.value != "" && |PublishedWithKey(store.forms, key.value)| == 1 ==>
        var form := PublishedWithKey(store.forms, key.value)[0];
        var st := StartSession(store, form, m, now).0;
        var fields := FormFields(store.fields, form.id);
        && (fields == [] ==>
              HandleFormStart(store, m, now) == Step(st, [TextOut(m.from, StartApology)], Err("Form has no fields")))
        && (fields != [] && FieldPrompt(m.from, fields[0], 1, 1).Err? ==>
              HandleFormStart(store, m, now) == Step(st, [TextOut(m.from, StartApology)], Err(FieldPrompt(m.from, fields[0], 1, 1).error)))
  {
    var key := SplitSecond(m.text);
    if key.Some? && key.value != "" && |PublishedWithKey(store.forms, key.value)| == 1 {
      var form := PublishedWithKey(store.forms, key.value)[0];
      assert StartSession(store, form, m, now).0.fields == store.fields;
    }
  }

  /** A successful start for a phone with no in-progress session appends one pointerless session. */
  lemma StartInsertsPointerless(store: Store, m: Inbound, now: int) returns (s: Session)
    requires forall t :: t in store.responses ==> !(t.phone == m.from && t.status == InProgress)
    requires HandleFormStart(store, m, now).result.Ok?
    ensures HandleFormStart(store, m, now).store.responses == store.responses + [s]
    ensures s.phone == m.from && s.status == InProgress && s.currentStep.None?
    ensures forall t :: t in store.responses ==> t.id < s.id
  {
    var form, first := StartParts(store, m, now);
    s := StartedSession(store, form, m, now);
  }

  /** After appending an in-progress row for a phone that had none, that row is the phone's active session. */
  lemma AppendedIsActive(rs: seq<Session>, s: Session, phone: string)
    requires forall t :: t in rs ==> !(t.phone == phone && t.status == InProgress)
    requires s.phone == phone && s.status == InProgress
    ensures SessionManager.ActiveSession(rs + [s], phone) == Some(s)
  {
    assert s in rs + [s];
  }

  /**
   * As written, the first answer after starting a form can never be stored:
   * the only in-progress session of the phone is the one the start created,
   * its `current_step` is null, and the engine replies with the apology and
   * throws 'Field not found'.
   */
  lemma StartThenAnswerFails(store: Store, m: Inbound, now: int, reply: Inbound, later: int)
    requires forall s :: s in store.responses ==> !(s.phone == m.from && s.status == InProgress)
    requires StartsWith(m.text, "START:") && ProcessMessage(store, m, now).result.Ok?
    requires reply.from == m.from && !StartsWith(reply.text, "START:")
    ensures var after := ProcessMessage(store, m, now).store;
      ProcessMessage(after, reply, later) == Step(after, [TextOut(reply.from, ResponseApology)], Err("Field not found"))
  {
    assert ProcessMessage(store, m, now) == HandleFormStart(store, m, now);
    var after := HandleFormStart(store, m, now).store;
    var s := StartInsertsPointerless(store, m, now);
    AppendedIsActive(store.responses, s, m.from);
    assert SessionById(store.responses, s.id).None?;
    SessionByIdAppend(store.responses, s);
    assert ProcessMessage(after, reply, later) == HandleFormResponse(after, s, reply, later);
    UnknownStepFails(after, s, reply, later);
  }

  lemma {:induction false} SessionByIdAppend(rs: seq<Session>, s: Session)
    requires SessionById(rs, s.id).None?
    ensures SessionById(rs + [s], s.id) == Some(s)
  {
    if |rs| > 0 {
      assert (rs + [s])[1..] == rs[1..] + [s];
      SessionByIdAppend(rs[1..], s);
    } else {
      assert rs + [s] == [s];
    }
  }

  /** As written, the start prompt always counts the form as one question long. */
  lemma StartPromptsOneOfOne(store: Store, m: Inbound, now: int)
    requires HandleFormStart(store, m, now).result.Ok?
    ensures var sent := HandleFormStart(store, m, now).sent;
      |sent| == 1 && exists f :: f in store.fields && PromptHeader(sent[0]) == f.caption + " (1/1)"
  {
    var form, first := StartParts(store, m, now);
    PromptShape(m.from, first, 1, 1);
    FirstOfOneHeader(first.caption);
    assert first in store.fields by {
      assert first in FormFields(store.fields, form.id);
    }
  }

  /**
   * The session a successful corrected start works on: the key names exactly
   * one published form, and the pair's in-progress session is resumed or a
   * new one appended, which is then found by id.
   */
  lemma StartFixedSession(store: Store, m: Inbound, now: int) returns (form: Form, st: Store, responseId: nat)
    requires UniqueIds(store.responses) && SinglePerPair(store.responses)
    requires HandleFormStartFixed(store, m, now).result.Ok?
    ensures SplitSecond(m.text).Some? && Single(PublishedWithKey(store.forms, SplitSecond(m.text).value)) == Some(form)
    ensures st.fields == store.fields && UniqueIds(st.responses) && SinglePerPair(st.responses)
    ensures SessionById(st.responses, responseId).Some? && SessionById(st.responses, responseId).value.formId == form.id
    ensures StartSession(store, form, m, now) == (st, responseId)
    ensures HandleFormStartFixed(store, m, now) == PointAndPrompt(st, responseId, form.id, m, now)
    ensures var existing := First(SessionManager.InProgressFor(store.responses, form.id, m.from));
      && (existing.Some? ==> st == store && responseId == existing.value.id)
      && (existing.None? ==> (st.responses == store.responses + [StartedSession(store, form, m, now)]
            && responseId == StartedSession(store, form, m, now).id))
  {
    var key := SplitSecond(m.text);
    form := Single(PublishedWithKey(store.forms, key.value)).value;
    var existing := First(SessionManager.InProgressFor(store.responses, form.id, m.from));
    if existing.Some? {
      st, responseId := store, existing.value.id;
      assert existing.value in store.responses;
      var k :| 0 <= k < |store.responses| && store.responses[k] == existing.value;
      FoundById(store.responses, responseId, k);
    } else {
      var s := StartedSession(store, form, m, now);
      st, responseId := store.(responses := store.responses + [s]), s.id;
      AppendPreserves(store.responses, s);
      assert SessionById(store.responses, s.id).None?;
      SessionByIdAppend(store.responses, s);
    }
  }

  /** The header of question 1 of 1 reads `label (1/1)`. */
  lemma FirstOfOneHeader(caption: string)
    ensures caption + " (" + IntToString(1) + "/" + IntToString(1) + ")" == caption + " (1/1)"
  {
    assert IntToString(1) == "1";
  }

  /**
   * A successful corrected start, taken apart: the session of
   * `StartFixedSession` is pointed at the form's first field, and the prompt
   * counts all of the form's fields.
   */
  lemma StartFixedParts(store: Store, m: Inbound, now: int) returns (form: Form, st: Store, responseId: nat)
    requires UniqueIds(store.responses) && SinglePerPair(store.responses)
    requires HandleFormStartFixed(store, m, now).result.Ok?
    ensures SplitSecond(m.text).Some? && Single(PublishedWithKey(store.forms, SplitSecond(m.text).value)) == Some(form)
    ensures st.fields == store.fields && UniqueIds(st.responses) && SinglePerPair(st.responses)
    ensures SessionById(st.responses, responseId).Some? && SessionById(st.responses, responseId).value.formId == form.id
    ensures var after := HandleFormStartFixed(store, m, now);
      var fields := FormFields(store.fields, form.id);
      var s := SessionById(st.responses, responseId).value;
      && |fields| > 0
      && after.store == st.(responses := ReplaceSession(st.responses, s.(currentStep := Some(fields[0].id), updatedAt := now, lastActivityAt := now)))
      && after.result == Ok(Started(responseId))
      && FieldPrompt(m.from, fields[0], 1, |fields|).Ok? && after.sent == [FieldPrompt(m.from, fields[0], 1, |fields|).value]
  {
    form, st, responseId := StartFixedSession(store, m, now);
    PointAndPromptParts(st, responseId, form.id, m, now);
  }

  /**
   * A successful `PointAndPrompt`: the form has fields, the session is found
   * and only its pointer and stamps change, and the one message is the
   * first field's prompt.
   */
  lemma PointAndPromptParts(st: Store, responseId: nat, formId: string, m: Inbound, now: int)
    requires PointAndPrompt(st, responseId, formId, m, now).result.Ok?
    ensures var after := PointAndPrompt(st, responseId, formId, m, now);
      var fields := FormFields(st.fields, formId);
      && |fields| > 0 && SessionById(st.responses, responseId).Some?
      && var s := SessionById(st.responses, responseId).value;
      && after.store == st.(responses := ReplaceSession(st.responses, s.(currentStep := Some(fields[0].id), updatedAt := now, lastActivityAt := now)))
      && after.result == Ok(Started(responseId))
      && FieldPrompt(m.from, fields[0], 1, |fields|).Ok? && after.sent == [FieldPrompt(m.from, fields[0], 1, |fields|).value]
  {
  }

  /**
   * With the corrected start, the session is pointed at the form's first field
   * and the prompt counts all of the form's fields.
   */
  lemma FixedStartSetsPointer(store: Store, m: Inbound, now: int)
    requires WellFormed(store)
    requires HandleFormStartFixed(store, m, now).result.Ok?
    ensures var after := HandleFormStartFixed(store, m, now);
      var id := after.result.value.responseId;
      && SessionById(after.store.responses, id).Some?
      && var fields := FormFields(store.fields, SessionById(after.store.responses, id).value.formId);
      && CurrentIndex(after.store, SessionById(after.store.responses, id).value) == Some(0)

  {
    var form, st, responseId := StartFixedParts(store, m, now);
    var fields := FormFields(store.fields, form.id);
    var s := SessionById(st.responses, responseId).value;
    var moved := s.(currentStep := Some(fields[0].id), updatedAt := now, lastActivityAt := now);
    var after := HandleFormStartFixed(store, m, now);
    ReplaceKeepsIds(st.responses, moved);
    assert after.result.value.responseId == responseId;
    assert SessionById(after.store.responses, responseId) == Some(moved);
    assert after.store.fields == store.fields && moved.formId == form.id;
    assert IndexOfField(fields, fields[0].id) == Some(0);
  }

  /** With the corrected start, the prompt counts all of the form's fields. */
  lemma FixedStartCountsAllFields(store: Store, m: Inbound, now: int) returns (fields: seq<Field>)
    requires WellFormed(store)
    requires HandleFormStartFixed(store, m, now).result.Ok?
    ensures SplitSecond(m.text).Some? && Single(PublishedWithKey(store.forms, SplitSecond(m.text).value)).Some?
    ensures fields == FormFields(store.fields, Single(PublishedWithKey(store.forms, SplitSecond(m.text).value)).value.id)
    ensures var sent := HandleFormStartFixed(store, m, now).sent;
      |fields| > 0 && |sent| == 1 && PromptHeader(sent[0]) == fields[0].caption + " (1/" + IntToString(|fields|) + ")"
  {
    var form, st, responseId := StartFixedSession(store, m, now);
    PointAndPromptParts(st, responseId, form.id, m, now);
    fields := FormFields(store.fields, form.id);
    PromptShape(m.from, fields[0], 1, |fields|);
    FirstQuestionHeader(fields[0].caption, IntToString(|fields|));
  }

  /** The header of question 1 reads `label (1/total)`. */
  lemma FirstQuestionHeader(caption: string, total: string)
    ensures caption + " (" + IntToString(1) + "/" + total + ")" == caption + " (1/" + total + ")"
  {
    assert IntToString(1) == "1";
  }

  lemma {:induction false} NoneInProgress(rs: seq<Session>, formId: string, phone: string)
    requires forall s :: s in rs ==> !(s.phone == phone && s.status == InProgress)
    ensures SessionManager.InProgressFor(rs, formId, phone) == []
  {
    if |rs| > 0 {
      assert rs[0] in rs;
      assert forall s :: s in rs[1..] ==> s in rs;
      NoneInProgress(rs[1..], formId, phone);
    }
  }

  /** After a corrected start from a phone with no session, the started session is that phone's only in-progress one. */
  lemma FixedStartOnlySession(store: Store, m: Inbound, now: int) returns (moved: Session)
    requires WellFormed(store)
    requires forall s :: s in store.responses ==> !(s.phone == m.from && s.status == InProgress)
    requires HandleFormStartFixed(store, m, now).result.Ok?
    ensures var after := HandleFormStartFixed(store, m, now);
      && UniqueIds(after.store.responses)
      && SessionById(after.store.responses, moved.id) == Some(moved)
      && moved.phone == m.from && moved.status == InProgress
      && CurrentIndex(after.store, moved) == Some(0)
      && forall t :: t in after.store.responses ==> !(t.phone == m.from && t.status == InProgress) || t == moved
  {
    var form, st, responseId := StartFixedSession(store, m, now);
    PointAndPromptParts(st, responseId, form.id, m, now);
    var s := StartedSession(store, form, m, now);
    var fields := FormFields(store.fields, form.id);
    moved := s.(currentStep := Some(fields[0].id), updatedAt := now, lastActivityAt := now);
    ReplaceKeepsIds(st.responses, moved);
    NoneInProgress(store.responses, form.id, m.from);
    assert st.responses == store.responses + [s] && responseId == s.id;
    ReplaceAppendedOnly(store.responses, s, moved, m.from);
  }

  /** Rewriting a row appended with a fresh id leaves it the phone's only in-progress row, if the table had none. */
  lemma ReplaceAppendedOnly(rs: seq<Session>, s: Session, moved: Session, phone: string)
    requires forall u :: u in rs ==> !(u.phone == phone && u.status == InProgress) && u.id < s.id
    requires moved.id == s.id
    ensures forall t :: t in ReplaceSession(rs + [s], moved) ==> !(t.phone == phone && t.status == InProgress) || t == moved
  {
    var r := ReplaceSession(rs + [s], moved);
    forall t | t in r
      ensures !(t.phone == phone && t.status == InProgress) || t == moved
    {
      var k :| 0 <= k < |r| && r[k] == t;
      if k < |rs| {
        assert (rs + [s])[k] == rs[k] && rs[k] in rs;
      }
    }
  }

  /** A phone's only in-progress row is its active session. */
  lemma OnlyActive(rs: seq<Session>, s: Session, phone: string)
    requires s in rs && s.phone == phone && s.status == InProgress
    requires forall t :: t in rs ==> !(t.phone == phone && t.status == InProgress) || t == s
    ensures SessionManager.ActiveSession(rs, phone) == Some(s)
  {
  }

  /** An answer for a session whose current step names a field of its form never fails with 'Field not found'. */
  lemma AnswerAtFirstField(store: Store, s: Session, m: Inbound, now: int)
    requires SessionById(store.responses, s.id) == Some(s) && CurrentIndex(store, s).Some?
    ensures HandleFormResponse(store, s, m, now).result != Err("Field not found")
  {
    var fields := FormFields(store.fields, s.formId);
    var i := CurrentIndex(store, s).value;
    assert HandleFormResponse(store, s, m, now) == AnswerField(store, s.id, s, fields, i, m, now);
    AnswerFieldOutcome(store, s.id, s, fields, i, m, now);
  }

  /**
   * Answering a known field is rejected, completes the form, advances, or
   * fails only in prompting the next field.
   */
  lemma AnswerFieldOutcome(store: Store, sessionId: nat, response: Session, fields: seq<Field>, i: nat, m: Inbound, now: int)
    requires i < |fields|
    ensures var r := AnswerField(store, sessionId, response, fields, i, m, now).result;
      r == Ok(Rejected) || r == Ok(FormCompleted) || r == Ok(Advanced) || r == Err("TypeError")
  {
    if ValidateResponse(m, fields[i]).Accept? && i + 1 < |fields| {
      var prompt := FieldPrompt(m.from, fields[i + 1], i + 2, |fields|);
      assert prompt.Err? ==> prompt.error == "TypeError";
    }
  }

  /**
   * With the corrected start, the first answer from a phone that had no
   * session is handled against the form's first field: it never fails with
   * 'Field not found'.
   */
  lemma FixedStartThenAnswerProceeds(store: Store, m: Inbound, now: int, reply: Inbound, later: int)
    requires WellFormed(store)
    requires forall s :: s in store.responses ==> !(s.phone == m.from && s.status == InProgress)
    requires HandleFormStartFixed(store, m, now).result.Ok?
    requires reply.from == m.from && !StartsWith(reply.text, "START:")
    ensures var after := HandleFormStartFixed(store, m, now).store;
      UniqueIds(after.responses) && ProcessMessageFixed(after, reply, later).result != Err("Field not found")
  {
    var after := HandleFormStartFixed(store, m, now).store;
    var moved := FixedStartOnlySession(store, m, now);
    assert moved in after.responses;
    OnlyActive(after.responses, moved, reply.from);
    AnswerAtFirstField(after, moved, reply, later);
  }
}
