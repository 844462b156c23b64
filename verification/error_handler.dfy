/**
 * Error classification: which failures are retried, and which message a user
 * or operator sees for them.
 */
module ErrorHandler {
  import opened Wrappers
  import opened Text
  import Js

  /**
   * The parts of a thrown value the handlers read: `message`, `code`, the three
   * places a status can sit (`status`, `statusCode`, `response.status`), and the
   * text `toString()` gives.
   */
  datatype ErrorValue = ErrorValue(
    message: Option<string>,
    code: Option<string>,
    status: Option<int>,
    statusCode: Option<int>,
    responseStatus: Option<int>,
    rendered: Option<string>)

  /** `a || b` on numbers: 0 and absent are falsy. */
  function OrStatus(a: Option<int>, b: Option<int>): (r: Option<int>)
    ensures a.Some? && a.value != 0 ==> r == a
    ensures !(a.Some? && a.value != 0) ==> r == b
  {
    if a.Some? && a.value != 0 then a else b
  }

  /** `error?.status || error?.statusCode || error?.response?.status` */
  function StatusOf(e: ErrorValue): Option<int> {
    OrStatus(OrStatus(e.status, e.statusCode), e.responseStatus)
  }

  const RetryableStatuses: seq<int> := [429, 500, 502, 503, 504]

  predicate RetryableStatus(status: Option<int>) {
    status.Some? && status.value in RetryableStatuses
  }

  /** The fixed WhatsApp API message table. */
  function WhatsAppStatusMessage(status: int): Option<string> {
    if status == 400 then Some("Bad request to WhatsApp API")
    else if status == 401 then Some("WhatsApp API authentication failed")
    else if status == 403 then Some("Forbidden - Check WhatsApp API permissions")
    else if status == 404 then Some("WhatsApp endpoint not found")
    else if status == 429 then Some("Too many requests - rate limited")
    else if status == 500 then Some("WhatsApp API server error")
    else if status == 502 then Some("Bad gateway")
    else if status == 503 then Some("Service unavailable")
    else if status == 504 then Some("Gateway timeout")
    else None
  }

  datatype WhatsAppErrorReport = WhatsAppErrorReport(message: string, shouldRetry: bool, statusCode: Option<int>)

  /** `handleWhatsAppError` */
  function HandleWhatsAppError(e: ErrorValue): (r: WhatsAppErrorReport)
    ensures r.statusCode == StatusOf(e)
    ensures r.shouldRetry <==> RetryableStatus(StatusOf(e))
    ensures StatusOf(e).None? || WhatsAppStatusMessage(StatusOf(e).value).None? ==> r.message == "Failed to send message"
    ensures StatusOf(e).Some? && WhatsAppStatusMessage(StatusOf(e).value).Some? ==>
      r.message == WhatsAppStatusMessage(StatusOf(e).value).value
  {
    var status := StatusOf(e);
    var message :=
      if status.Some? && WhatsAppStatusMessage(status.value).Some? then WhatsAppStatusMessage(status.value).value
      else "Failed to send message";
    WhatsAppErrorReport(message, RetryableStatus(status), status)
  }

  /** Every status that is retried also has its own message, so a retried send is never reported generically. */
  lemma RetriedStatusesHaveMessages(e: ErrorValue)
    ensures HandleWhatsAppError(e).shouldRetry ==> HandleWhatsAppError(e).message != "Failed to send message"
    ensures HandleWhatsAppError(e).shouldRetry ==> StatusOf(e).value >= 429
  {
  }

  datatype DatabaseErrorReport = DatabaseErrorReport(message: string, isDatabaseError: bool, code: Option<string>)

  /** `message.includes(sub)` on an optional message. */
  predicate MessageIncludes(message: Option<string>, sub: string) {
    message.Some? && Contains(message.value, sub)
  }

  /** `handleDatabaseError` (the substring tests are case-sensitive). */
  function HandleDatabaseError(e: ErrorValue): (r: DatabaseErrorReport)
    ensures r.isDatabaseError <==>
      (e.code.Some? && StartsWith(e.code.value, "PGRST"))
      || MessageIncludes(e.message, "database") || MessageIncludes(e.message, "postgres")
    ensures r.isDatabaseError ==> r.message == "Database error - please try again later" && r.code == e.code
    ensures !r.isDatabaseError ==> r.message == Js.OrElse(e.message, "Unknown error") && r.code.None?
  {
    var isDb := (e.code.Some? && StartsWith(e.code.value, "PGRST"))
      || MessageIncludes(e.message, "database") || MessageIncludes(e.message, "postgres");
    if isDb then DatabaseErrorReport("Database error - please try again later", true, e.code)
    else DatabaseErrorReport(Js.OrElse(e.message, "Unknown error"), false, None)
  }

  /** `error?.message || error?.toString() || 'Unknown error'` */
  function MessageText(e: ErrorValue): string {
    Js.OrElse(Js.Or(e.message, e.rendered), "Unknown error")
  }

  /** `a.toLowerCase().includes(b.toLowerCase())` */
  predicate IncludesIgnoringCase(a: string, b: string) {
    Contains(ToLower(a), ToLower(b))
  }

  /** The technical-to-friendly message table, in its declaration order. */
  const ErrorMap: seq<(string, string)> := [
    ("Form not found", "This form could not be found. Please check the link and try again."),
    ("No fields", "This form has no fields. Please contact the form owner."),
    ("Session not found", "Your session expired. Please start the form again."),
    ("Validation failed", "Your response did not meet the requirements. Please try again."),
    ("ECONNREFUSED", "Connection error. Please try again in a moment."),
    ("ETIMEDOUT", "Request timeout. Please try again."),
    ("network", "Network error. Please check your connection.")
  ]

  const DefaultErrorMessage: string := "Something went wrong. Please try again."

  /** Entry `i` of the table has a key that occurs in `message`, ignoring case. */
  predicate KeyOccurs(table: seq<(string, string)>, message: string, i: int) {
    0 <= i < |table| && IncludesIgnoringCase(message, table[i].0)
  }

  /** The value of the first entry whose key occurs in `message`, ignoring case. */
  function FirstMatch(table: seq<(string, string)>, message: string): Option<string> {
    if |table| == 0 then None
    else if IncludesIgnoringCase(message, table[0].0) then Some(table[0].1)
    else FirstMatch(table[1..], message)
  }

  /** `FirstMatch` finds the value of the earliest matching entry, and nothing when no key occurs. */
  lemma {:induction false} FirstMatchIsFirst(table: seq<(string, string)>, message: string)
    ensures FirstMatch(table, message).None? ==> forall i :: !KeyOccurs(table, message, i)
    ensures FirstMatch(table, message).Some? ==>
      exists i :: (KeyOccurs(table, message, i) && FirstMatch(table, message).value == table[i].1
                   && forall j :: 0 <= j < i ==> !KeyOccurs(table, message, j))
  {
    if |table| > 0 && !IncludesIgnoringCase(message, table[0].0) {
      var tail := table[1..];
      FirstMatchIsFirst(tail, message);
      assert forall i :: 1 <= i < |table| ==> (KeyOccurs(table, message, i) <==> KeyOccurs(tail, message, i - 1));
      if FirstMatch(tail, message).Some? {
        var i :| KeyOccurs(tail, message, i) && FirstMatch(tail, message).value == tail[i].1
          && forall j :: 0 <= j < i ==> !KeyOccurs(tail, message, j);
        assert KeyOccurs(table, message, i + 1);
        assert forall j :: 0 <= j < i + 1 ==> !KeyOccurs(table, message, j);
      } else {
        assert forall i :: !KeyOccurs(table, message, i) by {
          forall i ensures !KeyOccurs(table, message, i) {
            if 1 <= i < |table| {
              assert !KeyOccurs(tail, message, i - 1);
            }
          }
        }
      }
    }
  }

  /** `getErrorMessage`: the first table entry, in table order, whose key the message contains; else the default. */
  function GetErrorMessage(e: ErrorValue): (r: string)
    ensures (forall i :: !KeyOccurs(ErrorMap, MessageText(e), i)) ==> r == DefaultErrorMessage
    ensures (exists i :: KeyOccurs(ErrorMap, MessageText(e), i)) ==>
      exists i :: (KeyOccurs(ErrorMap, MessageText(e), i) && r == ErrorMap[i].1
                   && forall j :: 0 <= j < i ==> !KeyOccurs(ErrorMap, MessageText(e), j))
  {
    FirstMatchIsFirst(ErrorMap, MessageText(e));
    match FirstMatch(ErrorMap, MessageText(e))
    case None => DefaultErrorMessage
    case Some(v) => v
  }

  /** A message naming a missing form gets the form message, whatever else it says. */
  lemma FormNotFoundMessage(e: ErrorValue)
    requires StartsWith(MessageText(e), "Form not found")
    ensures GetErrorMessage(e) == "This form could not be found. Please check the link and try again."
  {
    var m := MessageText(e);
    assert ToLower(m)[..|ToLower("Form not found")|] == ToLower("Form not found");
    assert KeyOccurs(ErrorMap, m, 0);
  }

  const RetryablePatterns: seq<string> := ["ECONNREFUSED", "ETIMEDOUT", "ENOTFOUND", "network", "timeout", "temporarily unavailable"]

  /** `isErrorRetryable`: a retryable pattern in the message (ignoring case), or a retryable status. */
  function IsErrorRetryable(e: ErrorValue): (r: bool)
    ensures r <==> (exists i :: 0 <= i < |RetryablePatterns| && IncludesIgnoringCase(Js.OrElse(e.message, ""), RetryablePatterns[i]))
                   || RetryableStatus(StatusOf(e))
  {
    var message := Js.OrElse(e.message, "");
    (exists i :: 0 <= i < |RetryablePatterns| && IncludesIgnoringCase(message, RetryablePatterns[i]))
      || RetryableStatus(StatusOf(e))
  }

  /** An error the WhatsApp handler retries is also reported retryable. */
  lemma WhatsAppRetryIsRetryable(e: ErrorValue)
    ensures HandleWhatsAppError(e).shouldRetry ==> IsErrorRetryable(e)
  {
  }

  datatype MessageErrorReport = MessageErrorReport(logStatus: string, shouldRetry: bool, message: string)

  /** `handleMessageError`: retry while attempts remain, and log the matching status. */
  function HandleMessageError(attempt: int, maxAttempts: int, e: ErrorValue): (r: MessageErrorReport)
    ensures r.shouldRetry <==> attempt < maxAttempts
    ensures r.logStatus == (if r.shouldRetry then "retrying" else "failed")
    ensures r.message == GetErrorMessage(e)
  {
    var retry := attempt < maxAttempts;
    MessageErrorReport(if retry then "retrying" else "failed", retry, GetErrorMessage(e))
  }
}
