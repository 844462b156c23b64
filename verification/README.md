# Gatepass form engine — a Dafny model

Gatepass runs forms as WhatsApp conversations. A respondent opens a form by
sending `START:<form key>`. The server then asks one question per message,
walking the form's fields in `order_idx` order. Each answer is checked,
stored against the respondent's session, and moves the session's
`current_step` pointer forward, until the session is completed with its
duration in whole seconds. Meta's webhook delivers inbound messages. The
webhook flattens each delivery into queue records, and a worker polls the
queue with a bounded retry policy and a dead-letter queue. A dashboard
builds and publishes forms, lists, exports and analyses responses, and keeps
client-side stores of forms and responses.

This project states that behaviour in Dafny and proves properties of it:

- **Records, Wrappers, Text, Js, Sorting, Http, Payload**: the database rows
  and the PostgREST query idioms (`.eq`, a stable `.order`, `.single()`),
  and JavaScript's `||`, `Math.round`, `Math.floor` and `parseInt` over
  exact integers. Also the Cloud API payload and the handler outcome.
- **MessageProcessor, SessionManager, EngineProperties**: the
  conversational engine. This covers start and answer routing, prompt
  shapes, the forward-only step pointer and completion. It also covers
  the store invariants every step keeps, and the start-path defect
  described under Findings.
- **Validation, Helpers, ErrorHandler, FieldTypes**: the field validator,
  the string helpers, error classification and the closed table of field
  kinds.
- **QueueWorker, WebhookPost, WebhookGet**: one poll step with its retry
  and dead-letter policy, the worker's start/stop flag, the webhook's
  method dispatch, signature gate, payload flattening, the
  always-acknowledge policy and the verification handshake.
- **FormCompiler, UseForms**: flow compilation on the server and in the
  builder, generated form keys, publishing, reordering and the builder's
  local list updates.
- **UseResponses, ResponseStore, WhatsAppResponses, FormStore,
  AnalyticsClient**: the dashboard's composables and stores.
- **Export, ListResponses, Analytics**: the export, listing and analytics
  endpoints.

The clock, the database's answers, random draws, the HMAC digest and the
JavaScript runtime's URL, date and float parsers are parameters. A failed
query is a parameter in three places only: WhatsAppResponses (`failure`,
the query's message), AnalyticsClient (the endpoint's refusal and the
error's text) and ListResponses (the database's refusal of a malformed
limit or offset). Redis availability is a parameter or state in
WebhookPost and QueueWorker. Every other query is taken to succeed; the
error paths this drops are listed under "Left out". Each operation is a pure function from the old state to the
new state plus whatever it emits.

## Model

| member | source | states |
|---|---|---|
| Js.RoundRatio | stores/responses.ts:32 | `Math.round` of a quotient: the nearest integer to the exact ratio, with halves rounded up |
| Js.Percent | stores/responses.ts:23-26 | 0 for an empty total; otherwise the share as a percentage rounded half up |
| Js.PercentBounds | stores/responses.ts:23-26 | a part of a total gives a percentage in 0..100; all of it gives 100 and none gives 0 |
| Js.RoundedMeanWithin | stores/responses.ts:28-33 | a rounded mean of values between two bounds lies between those bounds |
| Js.FloorDiv | server/utils/messageProcessor.ts:347 | `Math.floor` of a quotient: the greatest integer not above the exact ratio |
| Js.ParseIntReadsDecimal | server/api/webhook/whatsapp.post.ts:162 | `parseInt` reads back the decimal rendering of an integer, whatever inert text follows it |
| Text.NatToStringRoundTrip | server/utils/helpers.ts:9 | reading back the decimal rendering of a number gives that number |
| Sorting.SortBy | server/utils/sessionManager.ts:250-254 | the result is sorted by the key and is a permutation of the input |
| Sorting.FirstIsLeast | server/utils/sessionManager.ts:29-33 | the first row of a sorted table has the least key of all rows |
| Sorting.SortByStable | server/utils/sessionManager.ts:250-254 | the sort is stable: the rows sharing any one key come out in the order they had in the table |
| Records.Single | server/api/responses/export.get.ts:38-42 | `.single()` yields a row exactly when one row matched, and it is that row |
| Records.First | server/utils/messageProcessor.ts:89-96 | `.limit(1).single()` yields nothing exactly for no rows, and otherwise the first row |
| Records.FormFields | server/api/responses/export.get.ts:59-63 | a form's fields are exactly its `form_fields` rows, ordered by `order_idx` |
| Records.FlowVersion | server/utils/formCompiler.ts:55 | a missing or zero flow version reads as 1, and any other is kept |
| Records.ReplaceKeepsIds | server/utils/sessionManager.ts:164-187 | an update by id keeps ids unique and makes the updated row the one found by its id |
| Records.StatusCountsSum | server/api/analytics/form.get.ts:86-88 | the three status counts add up to the number of responses |
| Records.WithoutCounts | composables/useForms.ts:423 | a filter by key keeps every row whose key differs, as often as it occurred, and drops every row whose key matches |
| Records.WithoutAppend | composables/useForms.ts:423 | filtering a concatenation is concatenating the filtered parts, so the kept rows keep their order |
| Records.WithoutStable | composables/useForms.ts:423 | filtering by a key no row has changes nothing, and filtering twice is filtering once |
| Helpers.FormattedProgress | server/utils/helpers.ts:8-10 | the progress label is bracketed, `(` first and `)` last, at least five characters |
| Helpers.ProgressRoundTrip | server/utils/helpers.ts:8-10 | the label written for a pair of counts reads back as exactly those counts |
| Helpers.ReadNatOf | server/utils/helpers.ts:8-10 | a decimal number followed by a non-digit reads back as that number with the rest untouched |
| Helpers.ExtractFormKeyIff | server/utils/helpers.ts:80-83 | a key is extracted exactly when the message is `START:` followed by a non-empty alphanumeric key, and it is that key |
| Helpers.ExtractImpliesStart | server/utils/helpers.ts:145-147 | every message a key is extracted from is a start message, but `START:a b` is a start message with no key |
| Helpers.FormatPhoneE164 | server/utils/helpers.ts:88-100 | the normalised number is all digits and begins with the `234` country code |
| Helpers.FormatPhoneIdempotent | server/utils/helpers.ts:88-100 | normalising an already normalised number changes nothing |
| Helpers.IsValidE164Phone | server/utils/helpers.ts:105-108 | a number is valid exactly when it holds 10 to 15 digits once non-digits are dropped |
| Helpers.LocalNumberBecomesValid | server/utils/helpers.ts:88-108 | a local `0` + 10-digit number becomes `234` + the 10 digits and passes the validity test |
| Helpers.CompletionPercentage | server/utils/helpers.ts:171-177 | 0 with no fields, within 0..100 for an answered index, 100 after the last field |
| Helpers.FormatCompletionTime | server/utils/helpers.ts:182-198 | the duration text is never empty |
| Helpers.CompletionTimeRoundTrip | server/utils/helpers.ts:182-198 | below an hour the text reads back as the exact seconds; from an hour on it reads back as the seconds with the last partial minute dropped |
| Helpers.ParseAfterNumber | server/utils/helpers.ts:182-198 | the reader of duration text consumes the leading number and continues with the unit |
| Helpers.ParseSecondsForm | server/utils/helpers.ts:183-185 | `Ns` reads back as N seconds |
| Helpers.ParseMinutesForm | server/utils/helpers.ts:187-192 | `Mm Ss` reads back as 60M + S seconds |
| Helpers.ParseHoursForm | server/utils/helpers.ts:194-197 | `Hh Mm` reads back as 3600H + 60M seconds |
| Helpers.KeepAllowed | server/utils/helpers.ts:152-157 | the filtered text holds only word, space and the listed punctuation characters, and is no longer than the input |
| Helpers.KeepAllowedOfAllowed | server/utils/helpers.ts:152-157 | text made only of allowed characters passes the filter unchanged |
| Helpers.Prefix | server/utils/helpers.ts:152-157 | the cut is a prefix of the text no longer than the limit, empty for a negative limit |
| Helpers.SanitizeString | server/utils/helpers.ts:152-157 | the result holds only allowed characters, is at most `maxLength` long and never longer than the input |
| Helpers.SanitizeKeepsClean | server/utils/helpers.ts:152-157 | already trimmed, short enough, clean text comes back unchanged |
| Helpers.ParseInteractiveMessage | server/utils/helpers.ts:122-140 | null exactly when there is no interactive part or it has neither reply; a button reply wins over a list reply and its id and title are reported |
| Validation.IndexOfAt | server/utils/validation.ts:8-11 | the position found holds the first `@` of the address; none means the address has no `@` |
| Validation.ValidateEmailShape | server/utils/validation.ts:8-11 | an address is accepted exactly when it splits into a non-empty local part without `@` or spaces, `@`, and a domain of such characters with an inner dot |
| Validation.ValidatePhone | server/utils/validation.ts:16-19 | a phone is accepted exactly when every character is a digit, space, dash, plus or bracket and it holds at least ten digits; an accepted phone is at least ten characters long |
| Validation.ValidateNumber | server/utils/validation.ts:36-52 | a number is accepted exactly when it parses and lies within each bound that is given, bounds inclusive |
| Validation.NumberErrorTail | server/utils/validation.ts:114-122 | the number message always begins `must be a valid number` and has no suffix when neither bound is set |
| Validation.AnyOptionMatchesIff | server/utils/validation.ts:141 | an option check succeeds exactly when some option's id or label equals the answer |
| Validation.TypeCheck | server/utils/validation.ts:83-176 | every type-specific message is a tail starting with a space, and kinds without a case are never rejected |
| Validation.ValidateFieldValue | server/utils/validation.ts:65-178 | an empty answer is rejected as `<label> is required` when the field is required and accepted otherwise; unchecked kinds are rejected only for that reason; every rejection starts with the field's label |
| Validation.SelectAccepts | server/utils/validation.ts:139-149 | a select answer is accepted exactly when it matches an option's id or label, and always when the field has no options |
| Validation.MultiselectAccepts | server/utils/validation.ts:151-164 | a multiselect answer, read as the one-element list of its text, is accepted exactly when it matches an option, and rejected as `contains invalid options` otherwise |
| Validation.RatingAccepts | server/utils/validation.ts:166-174 | a rating is accepted exactly when `parseInt` reads an integer from 1 to 5 |
| Validation.RatingReadsPrefix | server/utils/validation.ts:166-174 | a rating digit followed by any non-digit text is accepted, since `parseInt` reads only the prefix |
| Validation.NumberAccepts | server/utils/validation.ts:111-128 | a number answer is accepted exactly when it is within its bounds; a rejection reads `<label> must be a valid number` followed by ` between <min> and <max>`, ` at least <min>` or ` at most <max>`, according to which bounds exist |
| Validation.GetValidationErrorMessage | server/utils/validation.ts:183-198 | every message begins with the label, and kinds without an entry get `<label> is invalid` |
| FieldTypes.KindIndex | utils/fieldTypes.ts:19-230 | every kind has a place in the table's declaration order |
| FieldTypes.KindOf | utils/fieldTypes.ts:239-241 | a key resolves to the kind stored under it, and to none exactly when no kind has that key |
| FieldTypes.GetFieldType | utils/fieldTypes.ts:239-241 | among the table's own keys and all other names that are not `Object.prototype` members, a lookup succeeds exactly for the table's keys, and the entry found is that key's entry of the table, one of those `getAllFieldTypes` lists, carrying that id |
| FieldTypes.GetAllFields | utils/fieldTypes.ts:247-249 | the listing has one entry per kind, in declaration order |
| FieldTypes.FilterCategory | utils/fieldTypes.ts:243-245 | the filtered listing holds exactly the entries of the category, and no more entries than the input |
| FieldTypes.GetFieldsByCategory | utils/fieldTypes.ts:243-245 | a category listing holds exactly the table entries of that category |
| FieldTypes.FilterCategoryAppend | utils/fieldTypes.ts:243-245 | filtering a concatenation is the concatenation of the filtered parts, so entries keep their order and multiplicity |
| FieldTypes.FilterCategoryOne | utils/fieldTypes.ts:243-245 | a single entry is kept exactly when it is of the category |
| FieldTypes.CategoryListingOrder | utils/fieldTypes.ts:243-249 | for every table position, the listing holds the category's entries before that position ahead of those after it |
| FieldTypes.TableIdIsKey | utils/fieldTypes.ts:19-230 | every entry's `id` is the key it is stored under, and the table has eleven distinct keys |
| FieldTypes.SupportsOptionsExactly | utils/fieldTypes.ts:134-175 | only select and multiselect take options, and they are exactly the selection category |
| FieldTypes.WhatsappTypeByKind | utils/fieldTypes.ts:19-230 | select renders as buttons, multiselect as a list, file as a document and every other kind as text; only rating lacks validation support |
| FieldTypes.CategoryListing | utils/fieldTypes.ts:243-245 | a kind's entry appears in a category listing exactly when it belongs to that category |
| ErrorHandler.HandleWhatsAppError | server/utils/errorHandler.ts:90-124 | the report carries the detected status, is retried exactly for 429, 500, 502, 503 and 504, and carries the status's own message or `Failed to send message` |
| ErrorHandler.RetriedStatusesHaveMessages | server/utils/errorHandler.ts:104-120 | every retried send has a specific message and a status of at least 429 |
| ErrorHandler.HandleDatabaseError | server/utils/errorHandler.ts:129-156 | an error is a database error exactly when its code starts `PGRST` or its message mentions `database` or `postgres`; those get the fixed message and keep the code, others keep their message or `Unknown error` |
| ErrorHandler.FirstMatchIsFirst | server/utils/errorHandler.ts:161-182 | the table walk returns the value of the earliest entry whose key occurs in the message, and nothing when no key occurs |
| ErrorHandler.GetErrorMessage | server/utils/errorHandler.ts:161-182 | the friendly message belongs to the first table entry, in table order, whose key the message contains ignoring case, or is the default when none does |
| ErrorHandler.FormNotFoundMessage | server/utils/errorHandler.ts:161-182 | a message starting `Form not found` gets the form-not-found text |
| ErrorHandler.IsErrorRetryable | server/utils/errorHandler.ts:199-223 | an error is retryable exactly when its message contains a network pattern ignoring case, or its status is retryable |
| ErrorHandler.WhatsAppRetryIsRetryable | server/utils/errorHandler.ts:90-223 | every error the WhatsApp handler retries is also reported retryable |
| ErrorHandler.HandleMessageError | server/utils/errorHandler.ts:10-35 | a retry is asked for exactly while attempts remain, the logged status is `retrying` or `failed` accordingly, and the message is the friendly one |
| SessionManager.InProgressOf | server/utils/sessionManager.ts:244-264 | the candidates are exactly the phone's in-progress rows |
| SessionManager.InProgressFor | server/utils/sessionManager.ts:20-68 | the candidates are exactly the pair's in-progress rows |
| SessionManager.ActiveSession | server/utils/sessionManager.ts:244-264 | none exactly when the phone has no in-progress row; otherwise an in-progress row of the phone whose `last_activity_at` is at least every other such row's |
| SessionManager.GetOrCreateSession | server/utils/sessionManager.ts:20-68 | an existing pair session is returned with `isNew=false`, unchanged store, and the latest `created_at`; otherwise exactly one in-progress WhatsApp row with version 1 and a fresh id is appended and `isNew=true` |
| SessionManager.GetFormFields | server/utils/sessionManager.ts:101-119 | the form's fields, exactly, in ascending `order_idx` |
| SessionManager.GetFirstField | server/utils/sessionManager.ts:73-96 | fails with `Form has no fields` exactly when the form has none; otherwise a field of the form with the least `order_idx` |
| SessionManager.FieldsWithId | server/utils/sessionManager.ts:145-150 | the rows found are exactly the fields carrying the id |
| SessionManager.GetCurrentField | server/utils/sessionManager.ts:124-159 | `Session not found`, then `No current step set`, then `Current field not found`, in that order; past the first two checks it succeeds exactly when one field row has the current step's id, and returns that row with the session's form |
| SessionManager.SetCurrentStep | server/utils/sessionManager.ts:164-187 | fails exactly for an unknown session, with `Failed to set current step: ` followed by the `.single()` error; otherwise only that row's pointer and activity stamps change |
| SessionManager.InitializeSession | server/utils/sessionManager.ts:192-208 | fails with `Form has no fields` for an empty form and with the step error for an unknown session; succeeds exactly when the form has a field and the session exists, and then only that row changes: its current step names the form's first field and its two stamps become `now` |
| SessionManager.InitializeThenCurrentField | server/utils/sessionManager.ts:124-208 | after a successful initialisation, looking up the current field finds the form's first field, with the session's form id |
| SessionManager.GetNextField | server/utils/sessionManager.ts:213-239 | not found exactly when the current step is unset or names no listed field; complete only at the last field; otherwise the field right after the current one |
| MessageProcessor.PromptShape | server/utils/messageProcessor.ts:246-307 | buttons exactly for a select with options, holding at most its first three; one list section with every option exactly for a multiselect with more than three; text otherwise; the header is always `label (n/total)`; only a select or multiselect without `meta` fails |
| MessageProcessor.ValidateResponse | server/utils/messageProcessor.ts:312-334 | an answer is rejected exactly when the field has no `meta`, or requires a value and the answer is empty; an accepted value is the reply id, else the text |
| MessageProcessor.IndexOfChar | server/utils/messageProcessor.ts:70 | the position found is the first occurrence of the character; none means it does not occur |
| MessageProcessor.SplitSecond | server/utils/messageProcessor.ts:70 | the piece read after the first colon never contains a colon |
| MessageProcessor.StartKeyAgreesWithExtract | server/utils/messageProcessor.ts:70 | whenever `extractFormKey` finds a key, the engine's split reads the same key |
| MessageProcessor.PublishedWithKey | server/utils/messageProcessor.ts:76-86 | the candidates are exactly the published forms with the key |
| MessageProcessor.CompleteSession | server/utils/messageProcessor.ts:339-362 | the session becomes completed at `now`, with the whole seconds elapsed since `created_at` rounded down, and its identity, pointer and activity stamp unchanged |
| EngineProperties.ReplacePreserves | server/utils/sessionManager.ts:164-187 | rewriting a row in place keeps ids unique and keeps at most one in-progress row per (form, phone) pair |
| EngineProperties.AppendPreserves | server/utils/sessionManager.ts:20-68 | appending a fresh row for a pair with no in-progress row keeps both store invariants |
| EngineProperties.FoundRowCompatible | server/utils/messageProcessor.ts:162-240 | an update that keeps a row's pair and does not reopen it is a compatible rewrite |
| EngineProperties.ResponseKeepsWellFormed | server/utils/messageProcessor.ts:162-240 | the answer path keeps ids unique and at most one in-progress session per pair |
| EngineProperties.StartKeepsWellFormed | server/utils/messageProcessor.ts:67-156 | the start path keeps the store invariants, since it inserts only for a pair with no in-progress row |
| EngineProperties.ProcessKeepsWellFormed | server/utils/messageProcessor.ts:35-62 | every message, whatever its path, keeps the store invariants |
| EngineProperties.NoSessionReply | server/utils/messageProcessor.ts:40-54 | a non-start text from a phone with no in-progress session gets only the link reply and writes nothing |
| EngineProperties.ContinuationTarget | server/utils/messageProcessor.ts:367-378 | any other text is handled against the phone's in-progress session with the latest activity, whatever form it belongs to |
| EngineProperties.UnknownStepFails | server/utils/messageProcessor.ts:165-183 | a current step naming no field of the form gives the apology, the error `Field not found`, and no write |
| EngineProperties.RejectionChangesNothing | server/utils/messageProcessor.ts:192-199 | a rejected answer sends only the required-field error and changes nothing |
| EngineProperties.RejectedIff | server/utils/messageProcessor.ts:186-199 | at a known field, the answer is rejected exactly when `validateResponse` rejects it |
| EngineProperties.AdvanceMovesForward | server/utils/messageProcessor.ts:202-232 | accepting a non-last field appends one answer row for (session, field), moves the pointer to the next field by `order_idx`, never backward, and prompts it as question i+2 of all |
| EngineProperties.CompletionRecordsDuration | server/utils/messageProcessor.ts:209-220 | accepting the last field appends its answer and completes the session with the whole seconds since it was created, then sends the thank-you |
| EngineProperties.StartParts | server/utils/messageProcessor.ts:67-156 | a successful start had a non-empty key naming exactly one published form, resumed or appended the pair's session, and sent only the first field's prompt |
| EngineProperties.StartFailures | server/utils/messageProcessor.ts:67-156 | a failed start sends only the apology and rethrows: a missing key and a key naming no single published form leave the store unchanged; a form without fields, or a first prompt that throws, leaves the resumed or inserted session row |
| EngineProperties.StartInsertsPointerless | server/utils/messageProcessor.ts:104-129 | for a phone with no in-progress session, a start appends one in-progress row with no pointer and a fresh id |
| EngineProperties.AppendedIsActive | server/utils/messageProcessor.ts:367-378 | a row appended for a phone that had no in-progress row becomes its active session |
| EngineProperties.StartThenAnswerFails | server/utils/messageProcessor.ts:98-183 | as written, the first answer after starting from a fresh phone fails with `Field not found`, because the start never sets the pointer |
| EngineProperties.SessionByIdAppend | server/utils/messageProcessor.ts:104-129 | a row appended with an unused id is found by that id |
| EngineProperties.StartPromptsOneOfOne | server/utils/messageProcessor.ts:131-146 | as written, the start prompt always reads question 1 of 1, because the field query is limited to one row |
| EngineProperties.StartFixedParts | server/utils/messageProcessor.ts:67-156 | a corrected start resumes or appends the pair's session, finds it by id and points it at the form's first field |
| EngineProperties.FixedStartSetsPointer | server/utils/sessionManager.ts:192-208 | after a corrected start the session's current step names the form's first field |
| EngineProperties.FixedStartCountsAllFields | server/utils/messageProcessor.ts:131-146 | with the corrected start, the prompt counts all of the form's fields |
| EngineProperties.NoneInProgress | server/utils/sessionManager.ts:20-68 | a phone with no in-progress row has none for any form |
| EngineProperties.FixedStartOnlySession | server/utils/messageProcessor.ts:67-156 | after a corrected start from a fresh phone, the started session is its only in-progress one |
| EngineProperties.OnlyActive | server/utils/messageProcessor.ts:367-378 | a phone's only in-progress row is its active session |
| EngineProperties.AnswerAtFirstField | server/utils/messageProcessor.ts:165-183 | a session whose current step names a field of its form never fails with `Field not found` |
| EngineProperties.FixedStartThenAnswerProceeds | server/utils/messageProcessor.ts:165-183 | with the corrected start, the first answer from a fresh phone is handled against the first field and never fails with `Field not found` |
| QueueWorker.AfterAttempt | server/utils/queueWorker.ts:162-206 | a success changes neither list and a failure without Redis is lost; below `MAX_RETRIES` a copy with the count one higher is pushed at the queue head, otherwise the copy with `failed_at` and `error` is pushed at the dead-letter head |
| QueueWorker.PollShape | server/utils/queueWorker.ts:138-206 | one poll takes the tail, keeps the rest of the queue in order, adds at most one record at each head, and never both requeues and dead-letters |
| QueueWorker.IdlePoll | server/utils/queueWorker.ts:143-147 | without Redis or with an empty queue a poll changes nothing |
| QueueWorker.PollFate | server/utils/queueWorker.ts:138-206 | the tail record is gone after success, heads the queue as a retry copy below `MAX_RETRIES`, heads the dead-letter queue at or above it, and is dropped when it does not parse |
| QueueWorker.FailureWithoutRedisIsLost | server/utils/queueWorker.ts:173-176 | a failure with no Redis connection leaves both lists untouched |
| QueueWorker.FailingRecordAttempts | server/utils/queueWorker.ts:162-206 | a record whose processing always fails is attempted `MAX_RETRIES + 1 - retry_count` more times, so a fresh record at most four times, and ends as exactly one dead letter |
| QueueWorker.StartWorker | server/utils/queueWorker.ts:74-111 | a no-op when running or in development; otherwise it starts, with a client and a timer, exactly when Redis is already connected or the connection succeeds, and changes nothing when it fails; starting twice is starting once |
| QueueWorker.StopWorker | server/utils/queueWorker.ts:116-133 | a no-op when not running; otherwise the flag, the timer and the client are all cleared |
| QueueWorker.StartStop | server/utils/queueWorker.ts:74-133 | starting twice is starting once, and stopping after a start that connected leaves nothing running or connected |
| QueueWorker.LRange | server/utils/queueWorker.ts:274 | the range never holds more elements than the list |
| QueueWorker.ParseAll | server/utils/queueWorker.ts:278 | parsing succeeds exactly when every entry is a record, giving those records in order |
| QueueWorker.DeadLettersPositiveLimit | server/utils/queueWorker.ts:263-288 | for a positive limit the listing is the first `limit` dead letters, or all of them when there are fewer |
| QueueWorker.DeadLettersZeroLimitReturnsAll | server/utils/queueWorker.ts:263-288 | a limit of 0 lists the whole dead-letter queue, so more than `limit` records whenever it is not empty |
| QueueWorker.DeadLetterMessagesFixed | server/utils/queueWorker.ts:263-288 | the clamped listing never returns more than `limit` records, each a dead letter in queue order, and fails exactly without Redis |
| WebhookGet.Verify | server/api/webhook/whatsapp.get.ts:28-46 | no configured token is a 500 whatever else is sent, and a token mismatch is a 403 |
| WebhookGet.VerifyAcceptsIff | server/api/webhook/whatsapp.get.ts:28-68 | the handshake succeeds exactly when a token is configured, the request's token equals it, the mode is exactly `subscribe` and a challenge is present; the body is the challenge verbatim |
| WebhookGet.VerifyRejectionOrder | server/api/webhook/whatsapp.get.ts:28-68 | every rejection is a 500, 403 or 400; a 400 comes only after the token matched, and with mode `subscribe` only for a missing challenge |
| WebhookGet.DottedTakesPrecedence | server/api/webhook/whatsapp.get.ts:13-15 | when the dotted parameters are present, the underscored spellings never change the answer |
| WebhookPost.ToInbound | server/api/webhook/whatsapp.post.ts:157-176 | the record keeps the message's id, sender and type, and its text is the body or `''` |
| WebhookPost.InboundFields | server/api/webhook/whatsapp.post.ts:157-176 | the timestamp is the message's seconds times 1000, and the reply id is the button reply's id, else the list reply's, agreeing with `parseInteractiveMessage` |
| WebhookPost.Converted | server/api/webhook/whatsapp.post.ts:155-177 | one record per item, position by position |
| WebhookPost.ConvertedAppend | server/api/webhook/whatsapp.post.ts:145-182 | converting two runs of items one after the other is converting their concatenation |
| WebhookPost.ChangeItemsSafe | server/api/webhook/whatsapp.post.ts:152-155 | a change that does not throw yields items whose contact can be read |
| WebhookPost.ExtractChange | server/api/webhook/whatsapp.post.ts:155-177 | the innermost loop emits one record per message of the change, in order, each with the change's first contact |
| WebhookPost.ExtractChanges | server/api/webhook/whatsapp.post.ts:152-178 | the middle loop fails with a TypeError exactly when some change throws, and otherwise emits the records of every change in order |
| WebhookPost.ExtractMessages | server/api/webhook/whatsapp.post.ts:145-182 | exactly one record per message, in entry, change and message order; missing `entry`, `changes` or `messages` contribute nothing; fails exactly when a change lacks `value` or a contact lacks `profile` |
| WebhookPost.QueueMessage | server/api/webhook/whatsapp.post.ts:187-221 | with Redis up the pending record is pushed at the queue head and nothing is logged; otherwise the queue is untouched and one log row with status 500 is added |
| WebhookPost.PushedOrder | server/api/webhook/whatsapp.post.ts:187-221 | the pushed records appear head-first in reverse arrival order |
| WebhookPost.QueueAllPushes | server/api/webhook/whatsapp.post.ts:105-108 | when every push reaches Redis, the extracted messages land ahead of the existing queue in reverse, so the tail-popping worker takes them in arrival order after everything already queued, and nothing is logged |
| WebhookPost.QueueAllSplit | server/api/webhook/whatsapp.post.ts:105-108 | each push succeeds or fails on its own: the pushed messages land ahead of the queue in reverse arrival order, and every failed one leaves its 500 row after the existing rows, in arrival order |
| WebhookPost.PushedOrderCons | server/api/webhook/whatsapp.post.ts:187-221 | the first message's record is the last one pushed, nearest the old queue |
| WebhookPost.QueueAllLogs | server/api/webhook/whatsapp.post.ts:205-220 | when no push reaches Redis, each extracted message leaves one 500 log row, in order, earlier rows kept, and nothing is queued |
| WebhookPost.HandleWebhookMessage | server/api/webhook/whatsapp.post.ts:81-117 | a failed signature check is a 403 with no reads or writes; after the check the reply is always `ok`; messages are queued only when extraction succeeds |
| WebhookPost.HandleWebhookVerification | server/api/webhook/whatsapp.post.ts:62-76 | the challenge is echoed exactly when a token is configured and equals `hub_verify_token`; otherwise a 403 |
| WebhookPost.Dispatch | server/api/webhook/whatsapp.post.ts:42-57 | GET verifies and writes nothing, POST is acknowledged exactly when the signature is valid, and any other method is a 405 with no writes |
| FormCompiler.ByOrder | server/utils/formCompiler.ts:37-38 | the sorted fields are the same fields, ascending by `order_idx` |
| FormCompiler.CompileField | server/utils/formCompiler.ts:39-52 | each entry keeps the field's id and gets its position as `order`, `''` for a missing placeholder, `false` for a missing required flag, and the empty meta exactly when meta is missing |
| FormCompiler.CompileFormFlow | server/utils/formCompiler.ts:36-60 | one entry per field, numbered 0..n-1 in ascending `order_idx`, `total_fields` equal to that number, and version `flow_version` or 1, never 0 |
| FormCompiler.FieldIdsPermute | server/utils/formCompiler.ts:37-38 | rearranging the rows rearranges their ids |
| FormCompiler.CompiledIsPermutation | server/utils/formCompiler.ts:37-57 | every input id appears in the compiled flow exactly as often as in the input, and consecutive entries come from non-decreasing `order_idx` |
| FormCompiler.FormsWithId | server/utils/formCompiler.ts:77 | the rows matched are exactly those with the id |
| FormCompiler.UpdateFormFlow | server/utils/formCompiler.ts:65-86 | succeeds exactly when one row has the id; that row gets the flow and version `(flow.version or 1) + 1`, and no other row changes |
| FormCompiler.RecompileIfPublished | server/utils/formCompiler.ts:91-137 | `Form not found` unless exactly one row has the id; an unpublished form comes back unchanged with nothing compiled or written |
| FormCompiler.RecompileBumpsVersion | server/utils/formCompiler.ts:108-137 | recompiling a published form stores a flow of exactly its fields, numbered from 0, and advances the version by one |
| UseForms.StepId | composables/useForms.ts:483 | the step id is `s` followed by the decimal position counted from 1 |
| UseForms.CompileStep | composables/useForms.ts:481-497 | each step keeps its field's id, type and label as prompt |
| UseForms.CompileFlow | composables/useForms.ts:480-511 | fails exactly when some field has no `meta`, with the message of reading `validations` of null; otherwise one step per field in editor order, with the form's key |
| UseForms.StepsChain | composables/useForms.ts:483-488 | each step's `next` names the step after it, the last step's `next` is null, and no two steps share an id |
| UseForms.OptionsOnlyForChoices | composables/useForms.ts:491-494 | a step carries options exactly for `select` and `multiselect`, defaulting to the empty list, and keeps the field's required rule |
| UseForms.TriggerRecoversKey | composables/useForms.ts:508 | the WhatsApp trigger is a start message from which `extractFormKey` reads back the form's key |
| UseForms.KeyChar | composables/useForms.ts:472 | every alphabet character is a letter or digit |
| UseForms.KeyAlphabet | composables/useForms.ts:472 | the key alphabet has 62 characters |
| UseForms.KeyIndex | composables/useForms.ts:472 | every letter or digit has a position in the alphabet |
| UseForms.GenerateFormKey | composables/useForms.ts:471-478 | a generated key is eight letters or digits |
| UseForms.KeyDraws | composables/useForms.ts:471-478 | a key determines one draw per character |
| UseForms.GeneratedKeyRoundTrip | composables/useForms.ts:471-478 | the draws are read back from the key they produced, so different draws give different keys, and `extractFormKey` recovers the key from its start command |
| UseForms.IndexOfForm | composables/useForms.ts:208 | the position found holds the first form with the id; none means no form has it |
| UseForms.ReplaceFirstForm | composables/useForms.ts:208-211 | the list keeps its length, and only the first form with the id is replaced, when there is one |
| UseForms.PublishForm | composables/useForms.ts:255-304 | with no editor form or no fields it fails with `Form must have at least one field` and writes nothing; a failure is recorded as the error; a success clears the error and is published with version `(flow_version or 0) + 1` |
| UseForms.PublishStoresEditorFlow | composables/useForms.ts:266-295 | a successful publish stores under the form id one step per editor field, in editor order, rewrites only that form's rows, and the editor's form becomes the returned row |
| UseForms.SetOrder | composables/useForms.ts:447-451 | only rows with the id get the new `order_idx` |
| UseForms.ReorderRows | composables/useForms.ts:441-454 | the table keeps its size |
| UseForms.ReorderAssigns | composables/useForms.ts:441-454 | with distinct ids, each listed row's `order_idx` becomes its id's position in the list, and every other row is untouched |
| UseForms.SortLocal | composables/useForms.ts:457-459 | the local re-sort keeps the form list, clears the error, and for the shown form sorts its fields by `order_idx` as a permutation while leaving its other parts; any other editor state is kept |
| UseForms.ReorderFields | composables/useForms.ts:436-468 | the database gets the requested positions, the error is cleared, and the editor only rearranges the fields it already held |
| UseForms.ReorderLeavesEditorStale | composables/useForms.ts:457-459 | fields `a` at 0 and `b` at 1 reordered to `[b, a]`: the database puts `b` first but the editor still lists `a` first |
| UseForms.Arrange | composables/useForms.ts:457-459 | the rearranged editor list has at most one field per requested id |
| UseForms.ArrangeFollowsIds | composables/useForms.ts:457-459 | when every id is held, position k holds the field for the k-th id, carrying position k |
| UseForms.ReorderFieldsFixed | composables/useForms.ts:436-468 | the corrected reorder makes the same database writes, clears the error, keeps the form list and editor presence, and leaves the editor alone when it shows another form |
| UseForms.ReorderFixedMatchesRequest | composables/useForms.ts:436-468 | with distinct held ids, the corrected editor lists exactly the requested ids in order, each at its position, agreeing with the database |
| UseForms.DeleteFieldLocal | composables/useForms.ts:410-433 | the error is cleared and the editor's fields become the filter of its list by the id: the others keep their order and multiplicity, and none with the id remains |
| UseForms.UpdateFieldLocal | composables/useForms.ts:379-407 | the error is cleared, the editor's field list keeps its length, and only the first field with the id becomes the returned row |
| UseForms.AddFieldLocal | composables/useForms.ts:348-376 | the error is cleared; the new field is appended only when the editor shows that form, and otherwise nothing else changes |
| UseForms.UpdateFormLocal | composables/useForms.ts:190-227 | the error is cleared; the first listed form with the id becomes the returned row, and so does the editor's form when it is that form |
| UseForms.DeleteFormLocal | composables/useForms.ts:230-252 | the error is cleared; the list becomes its filter by the id, the others keeping order and multiplicity; the editor is cleared exactly when it showed that form |
| UseForms.PublishedCount | composables/useForms.ts:63 | the published count never exceeds the list length |
| UseForms.PublishedFormCount | composables/useForms.ts:62-63 | `publishedFormCount` never exceeds `formCount` |
| UseForms.PublishedCountSplit | composables/useForms.ts:63 | the published count of two lists joined is the sum of their counts |
| UseForms.ReplaceKeepsCounts | composables/useForms.ts:208-211 | replacing a listed form keeps the form count and moves the published count exactly by the change in the replaced row's published flag |
| UseResponses.CompletedCount | composables/useResponses.ts:50 | the completed count never exceeds the list, and equals it exactly when every entry is completed |
| UseResponses.CompletionRate | composables/useResponses.ts:51-54 | the rate lies in 0..100, is 0 for an empty list or none completed, and 100 when every entry is completed |
| UseResponses.ValuesFor | composables/useResponses.ts:195-200 | the rows found are exactly the pair's stored answers, and more than one only when the table holds two for the pair |
| UseResponses.AddValueDb | composables/useResponses.ts:194-233 | the written row carries the pair and the value; unless exactly one row matched, it is a new row with a fresh id appended to the table |
| UseResponses.AddValueStoresAnswer | composables/useResponses.ts:194-233 | saving an answer keeps value ids unique and at most one answer per (response, field); afterwards the pair's only answer is the written row, and every other pair's answer stays |
| UseResponses.IndexOfAnswer | composables/useResponses.ts:237-239 | the position found holds an answer for the field; none means the field has no local answer |
| UseResponses.UpsertLocal | composables/useResponses.ts:240-244 | the local list either keeps its length or gains the written row at its end |
| UseResponses.UpsertLocalKeepsOne | composables/useResponses.ts:236-245 | the local upsert keeps at most one answer per field, the field's answer becomes the written row, and answers to other fields keep their places |
| UseResponses.AddResponseValue | composables/useResponses.ts:185-254 | the list never changes and the error is cleared; the open response's answers are upserted exactly when it is the one answered, and otherwise nothing else changes |
| UseResponses.StatusUpdate | composables/useResponses.ts:265-277 | the update keeps the row's id and sets the status and activity stamp |
| UseResponses.SessionsWithId | composables/useResponses.ts:279-284 | the rows matched are exactly those with the id |
| UseResponses.IndexOfSession | composables/useResponses.ts:289 | the position found holds the first entry with the id; none means no entry has it |
| UseResponses.ReplaceListed | composables/useResponses.ts:289-292 | the list keeps its length and only the first entry with the id becomes the returned row |
| UseResponses.UpdateResponseStatus | composables/useResponses.ts:257-308 | fails, recording the error and changing no row, list entry or open response, exactly when the id does not match exactly one row; otherwise clears the error, returns that row with the update applied, writes it to every row with the id and to no other, puts it in the list where the id is first listed, and into the open response when that is the one |
| UseResponses.StatusCompletionTime | composables/useResponses.ts:271-277 | completing with a response open records `completed_at = now` and the whole seconds since its creation, rounded down; any other status keeps the stored completion fields |
| UseResponses.GetOrCreateSession | composables/useResponses.ts:311-377 | the list is untouched and the error cleared; the found or created session is opened with its stored answers (none when new), and a new one is in progress, version 1, from WhatsApp |
| UseResponses.GetOrCreateTwice | composables/useResponses.ts:311-377 | asking again finds an existing session and writes nothing; after a creation it finds that same session |
| UseResponses.CreateResponse | composables/useResponses.ts:57-104 | exactly one row is appended, in progress at version 1 with the given form, phone and source and a fresh id; it is opened with no answers, the list is untouched and the error cleared |
| UseResponses.DeleteResponse | composables/useResponses.ts:380-405 | the table and the list each become their filter by the id, the other rows keeping order and multiplicity; the error is cleared and the open response closes exactly when it was that one |
| UseResponses.WithoutSessionCount | composables/useResponses.ts:392 | deleting never raises the completed count, and drops no more completed entries than entries |
| Export.Quote | server/api/responses/export.get.ts:164 | a quoted cell begins and ends with `"` and is at least two longer than its text |
| Export.ReadQuotedEscape | server/api/responses/export.get.ts:164 | a CSV reader recovers an answer from its escaped form exactly, stopping at the closing quote |
| Export.QuotedRecordRoundTrip | server/api/responses/export.get.ts:162-168 | a line of quoted cells joined by commas reads back as exactly those cells, whatever they contain |
| Export.AnswerFor | server/api/responses/export.get.ts:163 | an answer is found exactly when the response has a value for the field, and it is one of that field's values |
| Export.AnswerCellsQuoted | server/api/responses/export.get.ts:162-165 | each answer cell is the escaped and quoted answer, or an empty quoted cell when there is none |
| Export.FixedCells | server/api/responses/export.get.ts:154-161 | a row starts with seven fixed cells: the phone, the name, the status, the source and the timing columns |
| Export.RowCells | server/api/responses/export.get.ts:154-166 | a row stands for seven fixed cells and then one cell per form field |
| Export.ParseMixed | server/api/responses/export.get.ts:153-168 | a line of unquoted cells that hold no comma or opening quote, followed by quoted cells, reads back as those cells |
| Export.CommaInNameSplitsRow | server/api/responses/export.get.ts:153-168 | as written, a respondent name `a,b` reads back as two cells, so the row has one cell more than the header and the later cells fall under the wrong columns |
| Export.CommaInNameShiftsColumns | server/api/responses/export.get.ts:140-168 | a concrete case: the header has eight columns but the row for a respondent named `a,b` reads back as nine cells |
| Export.FixedLinesReadBack | server/api/responses/export.get.ts:140-168 | with every cell escaped and quoted, the header reads back as the column names and each row as its cells, so the two always have the same number of columns |
| Export.JsonValue | server/api/responses/export.get.ts:130 | a JSON answer is never an empty string: a missing or empty answer becomes null |
| Export.SetKeyLookup | server/api/responses/export.get.ts:130 | after a key is set, looking it up gives the new value, and every other key keeps its old value |
| Export.JsonAnswersByLabel | server/api/responses/export.get.ts:128-132 | a label no field carries is absent from the answers, and a label maps to the answer of the last field that carries it |
| Export.Selected | server/api/responses/export.get.ts:73-98 | the rows selected are exactly the form's responses, restricted to the status when one is given, and they are sorted newest first |
| Export.Build | server/api/responses/export.get.ts:5-174 | no user gives 401; a missing form id gives 400; a format other than csv or json gives 400; then an unknown form gives 404 `Form not found`, another owner's form 403 `Access denied`, an owner's form with no selected responses 404 `No responses found`, and any other owner's request a file, CSV exactly when the format is csv |
| Export.ExportResponses | server/api/responses/export.get.ts:5-191 | the refusals before the headers are kept (401, 400, 400, 404, 403, 404); an owner's request with selected responses is sent exactly when the form's title is fit for a header, and otherwise the answer is 500 `Failed to export responses`; a sent disposition is always fit |
| Export.DispositionSafe | server/api/responses/export.get.ts:173-178 | the disposition of a file named after a title, the clock and the extension is fit for a header exactly when the title is |
| Export.HeaderSafeName | server/api/responses/export.get.ts:178 | the renamed file name has the same length, is fit for a header, and keeps every fit character in place, writing `_` for the others |
| Export.ExportResponsesFixed | server/api/responses/export.get.ts:5-191 | every request that passes the checks gets its file, under the renamed name and with a fit disposition; refusals are those of the checks |
| Export.FixedAgreesOnSafeTitles | server/api/responses/export.get.ts:173-191 | for a fit title the corrected and the as-written handler answer the same; for an unfit one only the corrected handler exports, and the as-written one answers 500 |
| Export.ArabicBuild | server/api/responses/export.get.ts:37-173 | the owner's CSV export of a form titled `استبيان` with one response passes every check and is named after the title |
| Export.ArabicTitleFails | server/api/responses/export.get.ts:173-191 | as written that export is a 500, while the corrected handler names the file with seven `_` in place of the title |
| Export.ExportPath | server/api/responses/export.get.ts:37-137 | a file is produced only for a form that exists and belongs to the caller, and it is built from that form's fields in order and the selected responses |
| Export.ExportFileName | server/api/responses/export.get.ts:137-173 | the file name is the form title, `_responses_`, the clock and the format's extension |
| Export.ExportCsvShape | server/api/responses/export.get.ts:140-171 | a CSV export is the header line followed by exactly one line per selected response, in order |
| Export.ExportJsonShape | server/api/responses/export.get.ts:119-135 | a JSON export has one entry per selected response, and a label carried by only one field maps to that field's answer or to null |
| ListResponses.LimitOf | server/api/responses/list.get.ts:22 | the page limit never exceeds 500, and an unreadable limit is distinguished as NaN |
| ListResponses.LimitAndOffsetDefaults | server/api/responses/list.get.ts:22-23 | a decimal limit is read back and capped at 500, a missing limit is 50, a decimal offset is read back, and a missing offset is 0 |
| ListResponses.StatusFilter | server/api/responses/list.get.ts:61-64 | the status filter applies exactly when the query names one of the three statuses, and then it is that status |
| ListResponses.SourceFilter | server/api/responses/list.get.ts:66-69 | the source filter applies exactly when the query names whatsapp, web or api, and then it is that source |
| ListResponses.SortFieldOf | server/api/responses/list.get.ts:24-73 | a sortable `sort_by` is used as given, and anything else sorts on `created_at` |
| ListResponses.KeyedSplit | server/api/responses/list.get.ts:75-76 | the rows with a sort key and the rows without one together make up the rows, as a multiset |
| ListResponses.NullsPlaced | server/api/responses/list.get.ts:75-76 | rows whose key is null go last in ascending order and first in descending order, and the order is kept |
| ListResponses.Ordered | server/api/responses/list.get.ts:75-76 | the ordered rows are a permutation of the filtered rows, and every pair is in the requested order |
| ListResponses.Matching | server/api/responses/list.get.ts:56-69 | the matching rows are exactly the form's rows that pass the applied filters |
| ListResponses.Page | server/api/responses/list.get.ts:77-78 | with the paging read as `.range(offset, offset + limit - 1)`, a page holds at most `limit` rows; they are the consecutive rows starting at `offset`, and the page is empty past the end |
| ListResponses.StatusCountsSum | server/api/responses/list.get.ts:95-119 | the three per-status counts add up to the form's rows |
| ListResponses.ListResponses | server/api/responses/list.get.ts:5-149 | with the corrected paging: no user gives 401; no form id gives 400; an unknown form gives 404; another owner's form gives 403; the owner gets a page exactly when limit and offset are non-negative numbers, and the database's refusal as a 500 otherwise; a page is the requested window of the filtered, ordered rows, with their total, and echoes its limit of at most 500, its offset and the filters as given |
| ListResponses.ListResponsesAsWritten | server/api/responses/list.get.ts:5-149 | as written nothing is ever listed: the 401, 400, 404 and 403 refusals are those of the corrected handler, and a request by the form's owner is a 500 `Failed to list responses` |
| ListResponses.OffsetBreaksEveryPage | server/api/responses/list.get.ts:75-149 | every page the corrected handler lists is a 500 as written, and every refusal other than a 500 is the same in both |
| ListResponses.OwnerListingFails | server/api/responses/list.get.ts:75-149 | the owner's default query on a form of their own lists a page of 50 when corrected, and is a 500 as written |
| ListResponses.PageContents | server/api/responses/list.get.ts:55-129 | a page is the window of the form's filtered, ordered rows starting at the offset: consecutive rows from there, `limit` of them or all that remain, each in the form and passing the filters, in the requested order; `has_more` holds exactly when rows follow the page; the total counts every match |
| ListResponses.PageOfOrdered | server/api/responses/list.get.ts:75-129 | a page of ordered rows is ordered and holds only those rows, and `offset + limit` falls short of the total exactly when rows follow the page |
| ListResponses.StatsOnFirstPage | server/api/responses/list.get.ts:87-120 | the first page counts all of the form's rows by status, whatever the filters, and every later page reports zero for each status |
| Analytics.WindowMs | server/api/analytics/form.get.ts:54-64 | `24h` looks back one day, `30d` thirty days, and every other period, including `7d` and unknown ones, seven days, all in milliseconds |
| Analytics.InWindow | server/api/analytics/form.get.ts:69-76 | the rows covered are exactly the form's responses created at or after the window start, newest first |
| Analytics.AverageWithinRange | server/api/analytics/form.get.ts:91-99 | the average completion time lies between the shortest and the longest time among completed responses with a truthy time |
| Analytics.TimedTotalBounds | server/api/analytics/form.get.ts:92-97 | the summed time of the timed completions lies between their count times the least and times the greatest time |
| Analytics.BumpEffect | server/api/analytics/form.get.ts:104 | a bump adds one to the total and to the key's bucket, creating it at 1 when missing, and leaves other buckets alone |
| Analytics.SourceBuckets | server/api/analytics/form.get.ts:102-108 | the buckets add up to the responses; whatsapp, web and api always hold their counts; any other source gets a bucket exactly when it occurs, holding its count |
| Analytics.BeforeTransitive | server/api/analytics/form.get.ts:180 | date order is transitive |
| Analytics.BeforeTotal | server/api/analytics/form.get.ts:180 | any two different dates are ordered one way or the other |
| Analytics.BeforeStrict | server/api/analytics/form.get.ts:180 | date order is irreflexive and asymmetric |
| Analytics.AddDay | server/api/analytics/form.get.ts:146-159 | adding a response keeps the daily table strictly ascending by date |
| Analytics.AddDayDates | server/api/analytics/form.get.ts:148-151 | adding a response adds exactly its date to the table's dates |
| Analytics.AddDayCounts | server/api/analytics/form.get.ts:152-155 | adding a response adds one to the daily counts, and one to the completions exactly when it is completed; no day counts more completions than responses |
| Analytics.AscendingDistinct | server/api/analytics/form.get.ts:179-180 | in an ascending table every earlier date comes strictly before, so dates are distinct |
| Analytics.DailyData | server/api/analytics/form.get.ts:146-184 | the daily table is strictly ascending by date |
| Analytics.DailyTotals | server/api/analytics/form.get.ts:146-184 | there is one entry per day with a response; the counts add up to the responses and the completions to the completed ones; no day counts more completions than responses |
| Analytics.FieldStats | server/api/analytics/form.get.ts:127-143 | with nothing completed there are no field stats; otherwise there is one per field, in field order, with the field's stored answer count and its rounded percentage of the completions |
| Analytics.FormAnalytics | server/api/analytics/form.get.ts:5-186 | no user gives 401; no form id gives 400; an unknown form gives 404; another owner's form gives 403; the owner always gets a report, naming the form by id and title, echoing the period and totalling the covered responses |
| Analytics.ReportConsistent | server/api/analytics/form.get.ts:50-184 | a report covers exactly the window's responses; its status counts sum to the total; the rate is in 0..100, 0 when empty and 100 when all completed; source buckets sum to the total; the daily table is ascending and consistent with the totals |
| ResponseStore.CompletionRate | stores/responses.ts:21-26 | the rate lies in 0..100, is 0 for an empty list, and is the completed share as a percentage rounded half up |
| ResponseStore.CompletedCountsAgree | stores/responses.ts:22 | the store counts the same completed rows as the `useResponses` composable |
| ResponseStore.CompletionRateAgrees | stores/responses.ts:21-26 | the store and the composable report the same rate for the same list, and it is 100 when every listed response is completed |
| ResponseStore.AverageTime | stores/responses.ts:28-33 | the average is 0 without a truthy completion time; otherwise it is the mean of those times rounded half up, whatever the status |
| ResponseStore.UntimedIgnored | stores/responses.ts:29-32 | a response without a truthy time, wherever it sits, changes neither the timed count, the total nor the average |
| ResponseStore.TimedTotalBounds | stores/responses.ts:31 | the timed total lies between the timed count times the least time and times the greatest |
| ResponseStore.AverageWithinRange | stores/responses.ts:28-33 | the average lies between the shortest and the longest truthy time |
| ResponseStore.ResponsesBySource | stores/responses.ts:35-43 | each of the three counters is the number of listed responses from that source |
| ResponseStore.BySourceWithinTotal | stores/responses.ts:35-43 | the counters add up to the responses from a counted source, so at most the total, and to exactly the total when every source is whatsapp, web or api |
| ResponseStore.UpdateResponse | stores/responses.ts:135-147 | only the first listed entry with the id is replaced; the open response takes the new columns but keeps its answers when it has the id; everything else is unchanged |
| ResponseStore.UpdateResponseIdempotent | stores/responses.ts:135-147 | applying the same update twice is the same as applying it once |
| ResponseStore.Reset | stores/responses.ts:150-157 | a reset empties the list, closes the open response and clears the form, step, loading flag and error |
| ResponseStore.ResetForgets | stores/responses.ts:150-157 | after a reset nothing of the earlier state is left: the counters read zero, and an update then changes nothing |
| FormStore.FindForm | stores/forms.ts:25 | none is found exactly when no listed form has the id; otherwise the first listed form with the id is returned |
| FormStore.SelectedForm | stores/forms.ts:23-28 | with a selected id, the selection is the first listed form with it, if any; without one, it is the opened form |
| FormStore.PublishedPlusDrafts | stores/forms.ts:30-32 | every form is either published or a draft, so the two counts add up to the total |
| FormStore.UpdateFormInList | stores/forms.ts:124-136 | only the first listed form with the id is replaced; the opened form takes the new columns but keeps its fields when it has the id; the selection is unchanged |
| FormStore.AddFormToList | stores/forms.ts:139-141 | the new form comes first, followed by the old list in order |
| FormStore.AddFormEffects | stores/forms.ts:30-151 | adding a form raises exactly one of the published and draft counts by one; a lookup of its id finds it; removing its id afterwards leaves the same list as removing the id before |
| FormStore.RemoveFromList | stores/forms.ts:144-151 | the list becomes its filter by the id, the other forms keeping order and multiplicity; removing the selected id clears the selection and the opened form, and any other id leaves them alone |
| FormStore.RemoveSelection | stores/forms.ts:23-151 | removing the selected form leaves nothing selected and nothing open; removing any other form keeps a selected listed form findable |
| FormStore.Reset | stores/forms.ts:154-161 | a reset clears the list, the opened form, the selection, the builder, the editing and preview flags, and keeps the sidebar setting |
| FormStore.ResetKeepsSidebar | stores/forms.ts:13-161 | a reset store equals a new one except possibly for the sidebar; resetting twice is resetting once; a reset store counts no forms and selects and edits nothing |
| WhatsAppResponses.LimitOf | composables/useResponsesWhatsApp.ts:88 | the page limit is always positive: a missing or zero limit becomes 100 |
| WhatsAppResponses.FromWhatsApp | composables/useResponsesWhatsApp.ts:76-84 | the rows fetched are exactly the form's WhatsApp responses, restricted to the status when one is given |
| WhatsAppResponses.NewestFirst | composables/useResponsesWhatsApp.ts:87 | the rows keep their membership and are ordered newest first |
| WhatsAppResponses.GetFormResponses | composables/useResponsesWhatsApp.ts:67-101 | with the corrected paging: a failed query records its message and keeps the list; otherwise the list becomes the window of the form's WhatsApp responses passing the filter, newest first, that starts at the offset and holds at most the limit |
| WhatsAppResponses.GetFormResponsesAsWritten | composables/useResponsesWhatsApp.ts:67-101 | as written every call fails before any query: the list is kept, loading ends and the thrown message is recorded as the error |
| WhatsAppResponses.OffsetNeverLoads | composables/useResponsesWhatsApp.ts:86-89 | the corrected fetch always loads the window of the form's newest WhatsApp rows starting at the offset; the fetch as written loads nothing and records the missing `.offset` instead |
| WhatsAppResponses.GetStats | composables/useResponsesWhatsApp.ts:236-259 | a failed fetch reports 'Failed to fetch responses'; otherwise the stats describe the freshly loaded list |
| WhatsAppResponses.StatsConsistent | composables/useResponsesWhatsApp.ts:43-64 | stats cover at most a hundred of the form's WhatsApp responses; the status counters sum to the total; the rate is a percentage; with no responses the rate and average are 0 |
| WhatsAppResponses.Abandon | composables/useResponsesWhatsApp.ts:173-176 | the written row is abandoned and stamped with the clock, and keeps its identity and completion columns |
| WhatsAppResponses.MarkAbandoned | composables/useResponsesWhatsApp.ts:166-195 | it fails, changing no row, exactly when the id does not match exactly one row; otherwise that row is abandoned in the table and the first listed entry with the id is replaced |
| WhatsAppResponses.CountAfterReplace | composables/useResponsesWhatsApp.ts:183-186 | replacing one entry moves one from its old status's counter to its new status's counter |
| WhatsAppResponses.MarkAbandonedCounts | composables/useResponsesWhatsApp.ts:166-195 | marking never lowers the abandoned counter or raises the others; an in-progress entry moves exactly one from in progress to abandoned |
| WhatsAppResponses.MinutesCell | composables/useResponsesWhatsApp.ts:218-220 | a truthy time shows its minutes rounded half up followed by `m`; any other shows `-`; the cell never holds a line feed |
| WhatsAppResponses.CsvLines | composables/useResponsesWhatsApp.ts:217-222 | one line per response, in order |
| WhatsAppResponses.SplitLinesCons | composables/useResponsesWhatsApp.ts:221 | a text without a line feed, followed by a line feed, splits off as the first line |
| WhatsAppResponses.CsvLineUnbroken | composables/useResponsesWhatsApp.ts:221 | a line whose columns hold no line feed holds none itself |
| WhatsAppResponses.LinesSplit | composables/useResponsesWhatsApp.ts:217-222 | lines without line feeds, each ended by one, split back into exactly those lines followed by the empty text after the final line feed |
| WhatsAppResponses.CsvTextSplits | composables/useResponsesWhatsApp.ts:215-222 | the CSV splits into the header, one line per response, and the empty rest |
| WhatsAppResponses.ExportResponses | composables/useResponsesWhatsApp.ts:198-233 | a failed fetch reports 'Failed to fetch responses'; otherwise json gives the rows as JSON and any other format gives CSV, named after the form and the clock |
| WhatsAppResponses.ExportCsvLines | composables/useResponsesWhatsApp.ts:198-228 | a CSV export holds at most a hundred responses and splits into the header, then exactly one line per exported response, then the empty rest |
| AnalyticsClient.Load | composables/useFormAnalytics.ts:45-77 | with a callable fetch helper: a report replaces the summary, the field statistics and the buckets and clears the error; a refusal keeps them and records the error's text |
| AnalyticsClient.LoadAsWritten | composables/useFormAnalytics.ts:28-77 | as written the summary, the field statistics and the buckets are kept and the thrown message is recorded |
| AnalyticsClient.AnalyticsNeverLoad | composables/useFormAnalytics.ts:28-77 | from the initial state, as written the total stays 0 and the breakdown all zeros, while loading a report shows its summary and field statistics |
| AnalyticsClient.ShareOf | composables/useFormAnalytics.ts:159-170 | a share counts the source's bucket, 0 when it is missing, and its percentage is that count over the total, rounded half up |
| AnalyticsClient.SourceBreakdown | composables/useFormAnalytics.ts:148-172 | with no responses every share is zero; otherwise there is one share each for whatsapp, web and api |
| AnalyticsClient.BreakdownOfReport | composables/useFormAnalytics.ts:45-172 | after a report is loaded, each source's count is the number of covered responses from it, and each percentage is in 0..100 |
| AnalyticsClient.RateIn | composables/useFormAnalytics.ts:142-145 | the rate is that of the first statistic for the field, and 0 when there is none |
| AnalyticsClient.UnknownFieldReadsZero | composables/useFormAnalytics.ts:142-145 | a field id the form does not have reads 0 |
| AnalyticsClient.KnownFieldReadsRate | composables/useFormAnalytics.ts:142-145 | a field of the form reads its answer count as a rounded percentage of the completions |
| AnalyticsClient.FirstStat | composables/useFormAnalytics.ts:143 | a field with a statistic at a position has a first one at or before it |
| AnalyticsClient.ReportFieldStats | composables/useFormAnalytics.ts:68 | the field stats held after loading are the form's field stats over every stored answer |
| AnalyticsClient.FieldRatesOfReport | composables/useFormAnalytics.ts:45-145 | after a report is loaded, an unknown field reads 0, and with something completed each field reads its rounded percentage of the completions |
| AnalyticsClient.IndexOf | composables/useFormAnalytics.ts:117 | the first place at or after `from` where the text occurs, or none when it occurs nowhere there |
| AnalyticsClient.LastIndexOf | composables/useFormAnalytics.ts:117 | the last place the character occurs, or none when it does not occur |
| AnalyticsClient.FilenameIn | composables/useFormAnalytics.ts:117 | a matched file name is never empty |
| AnalyticsClient.DownloadName | composables/useFormAnalytics.ts:112-121 | the file name from the header when it names one, `responses.<format>` otherwise |
| AnalyticsClient.FilenameAfter | composables/useFormAnalytics.ts:117-119 | a header ending in `filename="name"`, with no `f` before it, names `name` |
| AnalyticsClient.ExportQueryOf | composables/useFormAnalytics.ts:89-96 | the query carries the form id and the format, and the status only when it is truthy |
| AnalyticsClient.ExportDownload | composables/useFormAnalytics.ts:81-139 | a refused export fails with 'Export failed'; a delivered one is saved under the name its header gives |
| AnalyticsClient.DispositionNamesFile | server/api/responses/export.get.ts:178 | the endpoint's `Content-Disposition` names exactly the file it sent |
| AnalyticsClient.DownloadKeepsServerName | composables/useFormAnalytics.ts:81-134 | a delivered export is saved under exactly the file name the endpoint chose |

## Left out

- Database I/O is not modelled. Tables are sequences, and a query is a function over them. The `load*` and plain fetch actions of the stores and composables only copy query results into state, so they are not modelled: `loadForms`, `loadCurrentForm`, `loadResponses`, `loadCurrentResponse`, `getResponse`, `getPhoneResponses`, `getForm`, `listForms` and `createForm`.
- Database errors are not modelled outside the three modules named in the introduction. These error paths are dropped: the endpoints' 500 replies for failed form, field or response queries; the `if (error) throw` branches of the modelled form-builder actions (useForms.ts lines 205, 237, 282, 323, 363, 391, 420 and 453), each of which would record the query's message; the same branches of the response composable (useResponses.ts lines 90, 203, 216, 231, 286, 328, 363 and 390); and the engine's answer write (messageProcessor.ts lines 202-207), whose error the source never reads, so a failed write would still move the session on.
- MessageProcessor.AnswerRow: the engine's `form_response_values` upsert names no conflict column and no id, so the database inserts a fresh row; the model appends it with the next id. A second answer to the same field therefore adds a row and does not replace the first.
- ListResponses.Page: models `.range(m, m + n - 1)`, the paging the handlers evidently intend. The handlers as written call `.offset`, which the query builder does not have (see Findings).
- ListResponses.ListResponses: this is the handler with the corrected paging. As written, every request that passes the ownership check is a 500 `Failed to list responses`, which ListResponses.ListResponsesAsWritten states.
- WhatsAppResponses.GetFormResponses: this is the fetch with the corrected paging, and GetStats and ExportResponses build on it. As written, every call records the TypeError of the missing `.offset`, which WhatsAppResponses.GetFormResponsesAsWritten states.
- AnalyticsClient.Load: models `getFormAnalytics` with a callable fetch helper. As written, `$fetch` is the result of `useFetch()` called without a request, so no report is ever loaded (AnalyticsClient.LoadAsWritten, see Findings).
- UseForms.CompileFlow: the recorded text is the message V8 gives for reading `validations` of a null `meta`; another JavaScript engine words it differently.
- Export.SetKey: JavaScript lists integer-like keys (`"1"`, `"10"`) first, in ascending numeric order, and only then the other keys in insertion order. The model keeps insertion order for every key, so for integer-like labels the key order of an exported `responses` object differs.
- Export.SetKeyLookup: a `__proto__` key never becomes an own property in JavaScript: assigning a string to it is ignored, and assigning `null` replaces the object's prototype. The lemma's lookups do not hold for that key. Integer-like keys change only the order, not the lookups.
- Export.JsonAnswersByLabel: a field labelled `__proto__` adds no key to the exported object, so the lemma's lookup claims exclude that label. Integer-like labels are listed first, as for Export.SetKey.
- Export.ExportJsonShape: the same two label cases as Export.JsonAnswersByLabel.
- ListResponses.Ordered: nulls go last in ascending order and first in descending order, as in PostgreSQL's default. Ties keep table order.
- Js.RoundRatio: the exact ratio is rounded. The floating-point error of the source's division, and floats in general, are not modelled.
- Js.Percent: the exact ratio is rounded, as for Js.RoundRatio.
- Validation.ValidateNumber: `parseFloat`, `new URL` and `new Date` are oracle parameters. Bounds are integers.
- Text.ToLower: only ASCII letters are lower-cased. Other `toLowerCase` mappings are not modelled.
- Analytics.Before: `localeCompare` is taken as code-unit order. The two agree on `YYYY-MM-DD` dates. The calendar day of a timestamp is a parameter.
- Analytics.FieldStats: the answer count spans every stored answer to the field, as in the source, so the rate is not bounded by 100. No bound is claimed.
- ResponseStore.ResponsesBySource: the three counters are modelled exactly. A source named like an `Object.prototype` member passes the `in` test and adds a stray key to the counter object; that key is not modelled.
- Records.Session: status is one of the three values the schema allows. Other texts are not represented.
- WebhookPost.HandleWebhookMessage: the HMAC-SHA256 digest of the re-serialised body is a parameter, and only its comparison is modelled.
- QueueWorker.StartWorker: the `setInterval` timer, the lazy Redis connection and the first-request start flag are not modelled. The running flag and Redis availability are state.
- WebhookPost.QueueAll: whether each push reaches Redis is an oracle over the message's position. What makes a push fail is not modelled.
- FieldTypes.GetFieldType: the table is a plain object, so a name inherited from `Object.prototype` (`constructor`, `__proto__`, `toString` and the like) finds that member rather than `undefined`. Such names are not modelled; the contract covers all other names.
- Validation.GetValidationErrorMessage: for a type named like an `Object.prototype` member, the lookup finds that member, which is truthy, and it is returned in place of the fallback text. Such type names are not modelled.
- Analytics.SourceBuckets: a source named `constructor` or `__proto__` reads an inherited member rather than `undefined`. The bump then yields a string, or an ignored `__proto__` write, and the buckets no longer add up. Such source names are not modelled.
- Analytics.ReportConsistent: the sum of the source buckets holds only for sources that are not `Object.prototype` member names, as for Analytics.SourceBuckets.
- Helpers.SanitizeString: strings are sequences of Unicode scalar values, while `substring` and the regular expression without the `u` flag work on UTF-16 code units. Outside the Basic Multilingual Plane the two differ. For example, `"😀😀abc"` with `maxLength` 4 is `""` in the source (four code units, each surrogate half then removed) and `"ab"` in the model.
- Logging is not modelled: `console` output and the `webhook_logs` success rows. It is also why `handleValidationError` and `handleSessionError` are not modelled; they only log.
- Randomness and clocks are not modelled. These are `generateId`, `getRetryDelay`, `getBackoffDelay`, `getHumanReadableTime` and `Date.now()`. The random draws behind `generateFormKey` are parameters.
- The `WhatsAppClient` class and outbound HTTP are not modelled. A send is an appended outbound message.
- JSON text is not modelled. `JSON.stringify` output is represented by the structured rows it serialises. `JSON.parse` of a queue record is an entry that either parses or does not.
- The browser download in the analytics composable's export (Blob, anchor click) is not modelled. Only the chosen file name is.
- Setters that assign one field (`setSelectedForm`, `setBuilderOpen` and the like) are not modelled.
- Authentication, routing, theme, monitoring and test endpoints are not part of this model.
- MessageProcessor.HandleFormStart, HandleFormResponse and ProcessMessage carry no contracts of their own. Their behaviour is stated by the EngineProperties lemmas.

## Findings

| source | as written | input that shows it | evidently intended | confidence | as-written member | corrected member |
|---|---|---|---|---|---|---|
| server/utils/messageProcessor.ts:98-148 | starting a form creates or resumes a session but never sets `current_step`, and prompts the first field as `(1/1)` | `START:<key>` for a published form with two fields, then any answer | the start path points the session at the first field, as `initializeSession` does, so the next answer is accepted | not executed | EngineProperties.StartThenAnswerFails | EngineProperties.FixedStartThenAnswerProceeds |
| server/utils/queueWorker.ts:263-288 | `lrange(dlq, 0, limit - 1)` | `getDeadLetterMessages(0)` with a non-empty dead-letter queue returns every record | at most `limit` records | not executed | QueueWorker.DeadLettersZeroLimitReturnsAll | QueueWorker.DeadLetterMessagesFixed |
| server/api/responses/export.get.ts:153-168 | the seven fixed cells are joined unquoted | a respondent named `a,b` | every row reads back with as many cells as the header has columns | not executed | Export.CommaInNameSplitsRow | Export.FixedLinesReadBack |
| server/api/responses/list.get.ts:75-78 | the page is requested with `.limit(limit).offset(offset)`, but the query builder has `limit` and `range` and no `offset`, so the chain throws a TypeError and the catch-all answers 500 | the form's owner listing it with the default query | the page of at most `limit` rows from `offset`, that is `.range(offset, offset + limit - 1)` | not executed | ListResponses.OwnerListingFails | ListResponses.ListResponses |
| composables/useResponsesWhatsApp.ts:86-89 | the same `.limit(...).offset(...)` chain throws before the query is sent | any `getFormResponses` call, and so any `getStats` or `exportResponses` | the newest `limit` WhatsApp rows from `offset` are loaded | not executed | WhatsAppResponses.OffsetNeverLoads | WhatsAppResponses.GetFormResponses |
| server/api/responses/export.get.ts:176-178 | the `Content-Disposition` value carries the raw form title; `setHeader` refuses a character outside tab, printable ASCII and U+0080 to U+00FF, and the catch-all answers 500 | a form titled `استبيان` with one response, exported by its owner | every export that passes the checks downloads, under a name the header can carry | not executed | Export.ArabicTitleFails | Export.ExportResponsesFixed |
| composables/useFormAnalytics.ts:28-52 | `$fetch` is the value of `useFetch()` called without a request, which cannot be called | any `getFormAnalytics` call | `$fetch` is the app's callable fetch helper, so the endpoint's report is loaded | not executed | AnalyticsClient.AnalyticsNeverLoad | AnalyticsClient.Load |
| composables/useForms.ts:457-459 | the local field list is re-sorted by its own stale `order_idx` values after the database update | fields `a` at 0 and `b` at 1, reordered to `[b, a]` | the builder lists the fields in the requested order | not executed | UseForms.ReorderLeavesEditorStale | UseForms.ReorderFixedMatchesRequest |

The export endpoint model (`Export.ExportResponses`) keeps the as-written row writer and header check, so the endpoint's CSV and its 500 for unfit titles are the source's. `Export.RowLineFixed` is the corrected writer, and `Export.ExportResponsesFixed` the corrected handler. The analytics composable's export download is stated over the handler as written; its successful answers are those of the corrected handler whenever the title is fit for a header (`Export.FixedAgreesOnSafeTitles`).

Depending on the Nuxt version, `useFetch()` without a request may instead throw while the analytics composable is set up, so that it never returns at all. In both readings no report is ever loaded; `AnalyticsClient.LoadAsWritten` takes the thrown message as a parameter.
