/**
 * The conversational engine: one inbound chat message is either a start
 * command (`START:<form key>`) or the answer to the field the sender's
 * active session is waiting on.  A step reads and writes the store, emits
 * outbound WhatsApp messages, and ends with an outcome or a thrown error.
 * Writes made before an error stay in the store, as they do in the database.
 */
module MessageProcessor {
  import opened Wrappers
  import opened Text
  import Js
  import opened Records
  import opened Payload
  import Helpers
  import SessionManager

  datatype Outbound =
    | TextOut(to: string, body: string)
    | ButtonsOut(to: string, header: string, buttons: seq<Choice>)
    | ListOut(to: string, header: string, button: string, sectionTitle: string, rows: seq<Choice>)

  datatype Outcome = Started(responseId: nat) | NoSession | Rejected | FormCompleted | Advanced

  /** The store after the step, the messages it sent in order, and how it ended. */
  datatype Step = Step(store: Store, sent: seq<Outbound>, result: Result<Outcome>)

  const LinkReply: string := "Please use the link provided to start a form."
  const StartApology: string := "Sorry, there was an error starting the form. Please try again."
  const ResponseApology: string := "Sorry, there was an error processing your response."
  /** The confirmation as the source file spells it: the UTF-8 bytes of a check mark read as Windows-1252. */
  const ThankYou: string := "\U{00E2}\U{0153}\U{2026} Thank you! Your response has been submitted."
  const RequiredError: string := "This field is required"
  const InvalidResponse: string := "Invalid response"

  // ---------------------------------------------------------------- prompts

  /** `field.meta.options` with the TypeError a null `meta` raises. */
  function OptionsOf(field: Field): Result<Option<seq<Choice>>> {
    if field.meta.None? then Err("TypeError") else Ok(field.meta.value.options)
  }

  /** The prompt header: `label (n/total)`. */
  function Header(field: Field, questionNumber: int, totalQuestions: int): string {
    field.caption + " " + Helpers.FormattedProgress(questionNumber, totalQuestions)
  }

  /** `sendFieldPrompt`: buttons, a list or plain text, chosen from the field type and its options. */
  function FieldPrompt(phone: string, field: Field, questionNumber: int, totalQuestions: int): Result<Outbound> {
    var header := Header(field, questionNumber, totalQuestions);
    if field.fieldType == "select" && OptionsOf(field).Err? then Err("TypeError")
    else if field.fieldType == "select" && OptionsOf(field).value.Some? && |OptionsOf(field).value.value| > 0 then
      var options := OptionsOf(field).value.value;
      Ok(ButtonsOut(phone, header, if |options| <= 3 then options else options[..3]))
    else if field.fieldType == "multiselect" && OptionsOf(field).Err? then Err("TypeError")
    else if field.fieldType == "multiselect" && OptionsOf(field).value.Some? && |OptionsOf(field).value.value| > 3 then
      Ok(ListOut(phone, header, "Choose", "Options", OptionsOf(field).value.value))
    else Ok(TextOut(phone, header))
  }

  /** The header of any prompt. */
  function PromptHeader(o: Outbound): string {
    match o
    case TextOut(_, body) => body
    case ButtonsOut(_, header, _) => header
    case ListOut(_, header, _, _, _) => header
  }

  /**
   * Prompt shape: a select with options gets buttons for its first three
   * options, a multiselect with more than three options gets one list section
   * holding all of them, anything else is plain text; the header is always
   * `label (n/total)`, and only a select or multiselect without `meta` fails.
   */
  lemma PromptShape(phone: string, field: Field, q: int, t: int)
    ensures var r := FieldPrompt(phone, field, q, t);
      && (r.Err? <==> (field.fieldType == "select" || field.fieldType == "multiselect") && field.meta.None?)
      && (r.Ok? ==> PromptHeader(r.value) == field.caption + " (" + IntToString(q) + "/" + IntToString(t) + ")")
      && (r.Ok? && r.value.ButtonsOut? <==> (field.fieldType == "select" && field.meta.Some?
            && field.meta.value.options.Some? && |field.meta.value.options.value| > 0))
      && (r.Ok? && r.value.ButtonsOut? ==> (1 <= |r.value.buttons| <= 3
            && r.value.buttons == field.meta.value.options.value[..|r.value.buttons|]))
      && (r.Ok? && r.value.ListOut? <==> (field.fieldType == "multiselect" && field.meta.Some?
            && field.meta.value.options.Some? && |field.meta.value.options.value| > 3))
      && (r.Ok? && r.value.ListOut? ==> (r.value.rows == field.meta.value.options.value
            && r.value.button == "Choose" && r.value.sectionTitle == "Options"))
  {
    var r := FieldPrompt(phone, field, q, t);
    assert Header(field, q, t) == field.caption + " (" + IntToString(q) + "/" + IntToString(t) + ")";
    if r.Ok? && r.value.ButtonsOut? {
      var options := field.meta.value.options.value;
      assert |options| <= 3 ==> options[..|options|] == options;
    }
  }

  // ------------------------------------------------------------- validation

  datatype Check = Accept(value: string) | Reject(error: string)

  /** The value an answer carries: the interactive reply id, else the typed text. */
  function AnswerValue(m: Inbound): string {
    Js.OrElse(m.replyId, m.text)
  }

  /**
   * The engine's own `validateResponse`: it rejects only an empty value for a
   * field whose `meta.validations.required` is set; a field without `meta`
   * is rejected as an invalid response.
   */
  function ValidateResponse(m: Inbound, field: Field): (r: Check)
    ensures r.Accept? ==> r.value == AnswerValue(m)
    ensures r.Reject? <==> field.meta.None? || (field.meta.value.requiredRule && AnswerValue(m) == "")
    ensures r.Reject? ==> r.error == (if field.meta.None? then InvalidResponse else RequiredError)
  {
    var value := AnswerValue(m);
    if field.meta.None? then Reject(InvalidResponse)
    else if field.meta.value.requiredRule && value == "" then Reject(RequiredError)
    else Accept(value)
  }

  // ------------------------------------------------------------ start path

  /** Position of the first `c` in `s`. */
  function IndexOfChar(s: string, c: char): (r: Option<nat>)
    ensures r.Some? ==> r.value < |s| && s[r.value] == c && forall k :: 0 <= k < r.value ==> s[k] != c
    ensures r.None? ==> forall k :: 0 <= k < |s| ==> s[k] != c
  {
    if |s| == 0 then None
    else if s[0] == c then Some(0)
    else
      match IndexOfChar(s[1..], c)
      case None => None
      case Some(k) => Some(k + 1)
  }

  /** `text.split(':')[1]`: the text between the first and the second colon, undefined without a colon. */
  function SplitSecond(text: string): (r: Option<string>)
    ensures r.Some? ==> forall k :: 0 <= k < |r.value| ==> r.value[k] != ':'
  {
    match IndexOfChar(text, ':')
    case None => None
    case Some(i) =>
      var rest := text[i + 1..];
      match IndexOfChar(rest, ':')
      case None => Some(rest)
      case Some(j) => Some(rest[..j])
  }

  /** The start key is what `extractFormKey` would return, whenever that returns one. */
  lemma StartKeyAgreesWithExtract(text: string)
    requires Helpers.ExtractFormKey(text).Some?
    ensures SplitSecond(text) == Helpers.ExtractFormKey(text)
  {
    var key := Helpers.ExtractFormKey(text).value;
    Helpers.ExtractFormKeyIff(text, key);
    assert text[..6] == "START:" && text[6..] == key;
    assert text[5] == ':' && forall k :: 0 <= k < 5 ==> text[k] == text[..6][k] != ':';
    assert IndexOfChar(text, ':') == Some(5);
    assert forall k :: 0 <= k < |key| ==> key[k] != ':' by {
      forall k | 0 <= k < |key| ensures key[k] != ':' {
        assert IsAlnum(key[k]);
      }
    }
  }

  /** Published forms with the key. */
  function PublishedWithKey(forms: seq<Form>, key: string): (r: seq<Form>)
    ensures forall f :: f in r <==> f in forms && f.formKey == key && f.isPublished
  {
    if |forms| == 0 then []
    else
      var rest := PublishedWithKey(forms[1..], key);
      assert forall f :: f in forms <==> f == forms[0] || f in forms[1..];
      if forms[0].formKey == key && forms[0].isPublished then [forms[0]] + rest else rest
  }

  /** An error thrown on the start path: the apology is sent, then the error propagates. */
  function StartFailed(store: Store, m: Inbound, sent: seq<Outbound>, error: string): Step {
    Step(store, sent + [TextOut(m.from, StartApology)], Err(error))
  }

  /**
   * The session a start works on: the pair's first in-progress row (no
   * ordering), or else a new pointerless row appended with the form's
   * version; with the id of that row.
   */
  function StartSession(store: Store, form: Form, m: Inbound, now: int): (Store, nat) {
    var existing := First(SessionManager.InProgressFor(store.responses, form.id, m.from));
    if existing.Some? then (store, existing.value.id)
    else
      var s := SessionManager.NewSession(NextSessionId(store.responses), form.id, m.from, m.contactName, FlowVersion(form), now);
      (store.(responses := store.responses + [s]), s.id)
  }

  /**
   * `handleFormStart` as written: resolve the published form, resume the
   * pair's first in-progress row (no ordering) or insert one, and prompt the
   * lowest-`order_idx` field as question 1 of 1, because the field query is
   * limited to one row.  The session's `current_step` is never set.
   */
  function HandleFormStart(store: Store, m: Inbound, now: int): Step {
    var key := SplitSecond(m.text);
    if key.None? || key.value == "" then StartFailed(store, m, [], "Invalid form key")
    else
      match Single(PublishedWithKey(store.forms, key.value))
      case None => StartFailed(store, m, [], "Form not found")
      case Some(form) =>
        var (st, responseId) := StartSession(store, form, m, now);
        var first := First(FormFields(st.fields, form.id));
        if first.None? then StartFailed(st, m, [], "Form has no fields")
        else
          match FieldPrompt(m.from, first.value, 1, 1)
          case Err(e) => StartFailed(st, m, [], e)
          case Ok(prompt) => Step(st, [prompt], Ok(Started(responseId)))
  }

  /**
   * What the corrected start does once it has its session, as
   * `initializeSession` does: point the session at the form's first field,
   * then prompt that field counting all of the form's fields.
   */
  function PointAndPrompt(st: Store, responseId: nat, formId: string, m: Inbound, now: int): Step {
    var fields := FormFields(st.fields, formId);
    if |fields| == 0 then StartFailed(st, m, [], "Form has no fields")
    else
      match SessionManager.SetCurrentStep(st, responseId, fields[0].id, now)
      case Err(e) => StartFailed(st, m, [], e)
      case Ok(st2) =>
        match FieldPrompt(m.from, fields[0], 1, |fields|)
        case Err(e) => StartFailed(st2, m, [], e)
        case Ok(prompt) => Step(st2, [prompt], Ok(Started(responseId)))
  }

  /**
   * The start path with the pointer set: the new or resumed session is
   * pointed at the first field, and the prompt counts all of the form's
   * fields.
   */
  function HandleFormStartFixed(store: Store, m: Inbound, now: int): Step
    requires UniqueIds(store.responses)
  {
    var key := SplitSecond(m.text);
    if key.None? || key.value == "" then StartFailed(store, m, [], "Invalid form key")
    else
      match Single(PublishedWithKey(store.forms, key.value))
      case None => StartFailed(store, m, [], "Form not found")
      case Some(form) =>
        var (st, responseId) := StartSession(store, form, m, now);
        PointAndPrompt(st, responseId, form.id, m, now)
  }

  // --------------------------------------------------------- response path

  /** An error thrown on the answer path: the apology is sent, then the error propagates. */
  function ResponseFailed(store: Store, m: Inbound, error: string): Step {
    Step(store, [TextOut(m.from, ResponseApology)], Err(error))
  }

  /** `completeForm`: status, completion stamp and whole-second duration; the pointer and activity stamp stay. */
  function CompleteSession(s: Session, now: int): (r: Session)
    ensures r.status == Completed && r.completedAt == Some(now) && r.updatedAt == now
    ensures r.completionTime.Some? && 1000 * r.completionTime.value <= now - s.createdAt < 1000 * (r.completionTime.value + 1)
    ensures r.id == s.id && r.formId == s.formId && r.phone == s.phone && r.currentStep == s.currentStep
    ensures r.createdAt == s.createdAt && r.lastActivityAt == s.lastActivityAt
  {
    s.(status := Completed, completedAt := Some(now), completionTime := Some(Js.FloorDiv(now - s.createdAt, 1000)), updatedAt := now)
  }

  /** `updateCurrentStep`: the pointer and the activity stamp. */
  function MoveStep(s: Session, fieldId: string, now: int): Session {
    s.(currentStep := Some(fieldId), lastActivityAt := now)
  }

  /** The answer row written for a field. */
  function AnswerRow(store: Store, responseId: nat, fieldId: string, value: string, now: int): ValueRow {
    ValueRow(NextValueId(store.values), responseId, fieldId, value, now)
  }

  /**
   * `handleFormResponse`: find the field named by `current_step` among the
   * form's fields ordered by `order_idx`, check the answer, write it, then
   * complete the session or move the pointer to the next field and prompt it.
   */
  function HandleFormResponse(store: Store, session: Session, m: Inbound, now: int): Step {
    match SessionById(store.responses, session.id)
    case None => ResponseFailed(store, m, "TypeError")
    case Some(response) =>
      var fields := FormFields(store.fields, response.formId);
      var idx := if response.currentStep.None? then None else IndexOfField(fields, response.currentStep.value);
      if idx.None? then ResponseFailed(store, m, "Field not found")
      else AnswerField(store, session.id, response, fields, idx.value, m, now)
  }

  /**
   * The answer to the i-th of the form's fields: a rejected answer is
   * reported back; an accepted one is written, then the session is completed
   * when that was the last field, or moved to the next field, which is
   * prompted.
   */
  function AnswerField(store: Store, sessionId: nat, response: Session, fields: seq<Field>, i: nat, m: Inbound, now: int): Step
    requires i < |fields|
  {
    var field := fields[i];
    match ValidateResponse(m, field)
    case Reject(error) => Step(store, [TextOut(m.from, error)], Ok(Rejected))
    case Accept(value) =>
      var st := store.(values := store.values + [AnswerRow(store, sessionId, field.id, value, now)]);
      if i + 1 >= |fields| then
        var done := CompleteSession(response, now);
        Step(st.(responses := ReplaceSession(st.responses, done)), [TextOut(m.from, ThankYou)], Ok(FormCompleted))
      else
        var next := fields[i + 1];
        var st2 := st.(responses := ReplaceSession(st.responses, MoveStep(response, next.id, now)));
        match FieldPrompt(m.from, next, i + 2, |fields|)
        case Err(e) => ResponseFailed(st2, m, e)
        case Ok(prompt) => Step(st2, [prompt], Ok(Advanced))
  }

  // -------------------------------------------------------------- dispatch

  /** `processMessage` as written. */
  function ProcessMessage(store: Store, m: Inbound, now: int): Step {
    if StartsWith(m.text, "START:") then HandleFormStart(store, m, now)
    else
      match SessionManager.ActiveSession(store.responses, m.from)
      case None => Step(store, [TextOut(m.from, LinkReply)], Ok(NoSession))
      case Some(session) => HandleFormResponse(store, session, m, now)
  }

  /** `processMessage` with the corrected start path. */
  function ProcessMessageFixed(store: Store, m: Inbound, now: int): Step
    requires UniqueIds(store.responses)
  {
    if StartsWith(m.text, "START:") then HandleFormStartFixed(store, m, now)
    else
      match SessionManager.ActiveSession(store.responses, m.from)
      case None => Step(store, [TextOut(m.from, LinkReply)], Ok(NoSession))
      case Some(session) => HandleFormResponse(store, session, m, now)
  }
}
