/**
 * The server-side field validator: a type-dispatched accept/reject decision
 * with a label-specific error message.  URL and date recognition and
 * `parseFloat` belong to the JavaScript runtime and are passed in as oracles.
 */
module Validation {
  import opened Wrappers
  import opened Text
  import Js
  import opened Records

  /** What the runtime decides: `new URL(s)` succeeds, `new Date(s)` is a valid date, `parseFloat(s)` (None for NaN). */
  datatype Oracles = Oracles(isUrl: string -> bool, isDate: string -> bool, parseFloat: string -> Option<real>)

  datatype Verdict = Valid | Invalid(error: string)

  /** `[^\s@]`: a character an e-mail part may hold. */
  predicate EmailChar(c: char) {
    !IsSpace(c) && c != '@'
  }

  predicate AllEmailChars(s: string) {
    forall k :: 0 <= k < |s| ==> EmailChar(s[k])
  }

  /** A `.` with at least one character on each side. */
  predicate HasInnerDot(d: string) {
    exists j :: 0 < j < |d| - 1 && d[j] == '.'
  }

  /** Position of the first `@`, if any. */
  function IndexOfAt(s: string): (r: Option<nat>)
    ensures r.Some? ==> r.value < |s| && s[r.value] == '@'
    ensures r.Some? ==> forall k :: 0 <= k < r.value ==> s[k] != '@'
    ensures r.None? ==> forall k :: 0 <= k < |s| ==> s[k] != '@'
  {
    if |s| == 0 then None
    else if s[0] == '@' then Some(0)
    else
      match IndexOfAt(s[1..])
      case None => None
      case Some(k) => Some(k + 1)
  }

  /** `validateEmail`: the test of `^[^\s@]+@[^\s@]+\.[^\s@]+$`, decided at the first `@`. */
  function ValidateEmail(email: string): bool {
    match IndexOfAt(email)
    case None => false
    case Some(at) =>
      at > 0 && AllEmailChars(email[..at]) && AllEmailChars(email[at + 1..]) && HasInnerDot(email[at + 1..])
  }

  /** The shape the e-mail pattern describes, stated without regard to how it is searched. */
  predicate EmailShape(email: string) {
    && NoSpace(email)
    && exists i :: 0 < i < |email| && email[i] == '@'
         && AllEmailChars(email[..i]) && AllEmailChars(email[i + 1..]) && HasInnerDot(email[i + 1..])
  }

  /**
   * An e-mail is accepted iff it has no whitespace, exactly one `@` with a
   * non-empty local part, and a domain with a `.` that has text on both sides.
   */
  lemma ValidateEmailShape(email: string)
    ensures ValidateEmail(email) <==> EmailShape(email)
  {
    if ValidateEmail(email) {
      AcceptedEmailHasShape(email);
    }
    if EmailShape(email) {
      ShapedEmailAccepted(email);
    }
  }

  lemma AcceptedEmailHasShape(email: string)
    requires ValidateEmail(email)
    ensures EmailShape(email)
  {
    var i := IndexOfAt(email).value;
    forall k | 0 <= k < |email| ensures !IsSpace(email[k]) {
      if k < i {
        assert email[..i][k] == email[k];
      } else if k > i {
        assert email[i + 1..][k - i - 1] == email[k];
      }
    }
  }

  lemma ShapedEmailAccepted(email: string)
    requires EmailShape(email)
    ensures ValidateEmail(email)
  {
    var i :| 0 < i < |email| && email[i] == '@'
       && AllEmailChars(email[..i]) && AllEmailChars(email[i + 1..]) && HasInnerDot(email[i + 1..]);
    forall k | 0 <= k < i ensures email[k] != '@' {
      assert email[..i][k] == email[k];
    }
    assert IndexOfAt(email) == Some(i);
  }

  /** `[\d\s\-\+\(\)]` */
  predicate PhoneChar(c: char) {
    IsDigit(c) || IsSpace(c) || c == '-' || c == '+' || c == '(' || c == ')'
  }

  /** `validatePhone`: only phone characters, and at least 10 digits. */
  function ValidatePhone(phone: string): (r: bool)
    ensures r <==> (forall k :: 0 <= k < |phone| ==> PhoneChar(phone[k])) && |KeepDigits(phone)| >= 10
    ensures r ==> |phone| >= 10
  {
    (forall k :: 0 <= k < |phone| ==> PhoneChar(phone[k])) && |KeepDigits(phone)| >= 10
  }

  /** `validateNumber`: the parsed number lies within the inclusive bounds that are given. */
  function ValidateNumber(value: string, min: Option<int>, max: Option<int>, o: Oracles): (r: bool)
    ensures r <==> o.parseFloat(value).Some?
                   && (min.Some? ==> o.parseFloat(value).value >= min.value as real)
                   && (max.Some? ==> o.parseFloat(value).value <= max.value as real)
  {
    match o.parseFloat(value)
    case None => false
    case Some(num) =>
      if min.Some? && num < min.value as real then false
      else if max.Some? && num > max.value as real then false
      else true
  }

  /** The message tail for a number outside its bounds; the suffix names the bounds that exist. */
  function NumberErrorTail(min: Option<int>, max: Option<int>): (r: string)
    ensures StartsWith(r, " must be a valid number")
    ensures min.None? && max.None? ==> r == " must be a valid number"
  {
    var base := " must be a valid number";
    var suffix :=
      if min.Some? && max.Some? then " between " + IntToString(min.value) + " and " + IntToString(max.value)
      else if min.Some? then " at least " + IntToString(min.value)
      else if max.Some? then " at most " + IntToString(max.value)
      else "";
    assert (base + suffix)[..|base|] == base;
    base + suffix
  }

  /** Some option's id or label equals `v` (`options.some(...)`). */
  function AnyOptionMatches(options: seq<Choice>, v: string): bool {
    if |options| == 0 then false
    else options[0].id == v || options[0].caption == v || AnyOptionMatches(options[1..], v)
  }

  /** The reference reading of an option match. */
  predicate OptionMatches(options: seq<Choice>, v: string) {
    exists i :: 0 <= i < |options| && (options[i].id == v || options[i].caption == v)
  }

  lemma {:induction false} AnyOptionMatchesIff(options: seq<Choice>, v: string)
    ensures AnyOptionMatches(options, v) <==> OptionMatches(options, v)
  {
    if |options| > 0 {
      AnyOptionMatchesIff(options[1..], v);
      if OptionMatches(options[1..], v) {
        var i :| 0 <= i < |options[1..]| && (options[1..][i].id == v || options[1..][i].caption == v);
        assert options[i + 1] == options[1..][i];
      }
      if OptionMatches(options, v) && !(options[0].id == v || options[0].caption == v) {
        var i :| 0 <= i < |options| && (options[i].id == v || options[i].caption == v);
        assert options[1..][i - 1] == options[i];
      }
    }
  }

  /** `values.every(v => options.some(...))` */
  function AllOptionsMatch(options: seq<Choice>, values: seq<string>): bool {
    forall k :: 0 <= k < |values| ==> AnyOptionMatches(options, values[k])
  }

  function MetaMin(f: Field): Option<int> {
    if f.meta.Some? then f.meta.value.min else None
  }

  function MetaMax(f: Field): Option<int> {
    if f.meta.Some? then f.meta.value.max else None
  }

  function MetaOptions(f: Field): Option<seq<Choice>> {
    if f.meta.Some? then f.meta.value.options else None
  }

  /** `field.is_required` is truthy. */
  predicate IsRequired(f: Field) {
    f.isRequired == Some(true)
  }

  /** The kinds the validator has a case for. */
  predicate Checked(fieldType: string) {
    fieldType in ["email", "phone", "url", "number", "date", "select", "multiselect", "rating"]
  }

  /**
   * The type-specific check of a non-empty value: the text after the label in
   * the error message, or None when the value passes.
   */
  function TypeCheck(value: string, fieldType: string, field: Field, o: Oracles): (r: Option<string>)
    ensures r.Some? ==> |r.value| > 0 && r.value[0] == ' '
    ensures !Checked(fieldType) ==> r.None?
  {
    if fieldType == "email" then
      if !ValidateEmail(value) then Some(" must be a valid email") else None
    else if fieldType == "phone" then
      if !ValidatePhone(value) then Some(" must be a valid phone number") else None
    else if fieldType == "url" then
      if !o.isUrl(value) then Some(" must be a valid URL") else None
    else if fieldType == "number" then
      if !ValidateNumber(value, MetaMin(field), MetaMax(field), o) then
        var t := NumberErrorTail(MetaMin(field), MetaMax(field));
        assert t[0] == " must be a valid number"[0];
        Some(t)
      else None
    else if fieldType == "date" then
      if !o.isDate(value) then Some(" must be a valid date") else None
    else if fieldType == "select" then
      if MetaOptions(field).Some? && !AnyOptionMatches(MetaOptions(field).value, value) then
        Some(" must be a valid option")
      else None
    else if fieldType == "multiselect" then
      if MetaOptions(field).Some? && !AllOptionsMatch(MetaOptions(field).value, [value]) then
        Some(" contains invalid options")
      else None
    else if fieldType == "rating" then
      var rating := Js.ParseInt(value);
      if rating.None? || rating.value < 1 || rating.value > 5 then Some(" must be between 1 and 5")
      else None
    else None
  }

  /** `validateFieldValue`: the required check, then the empty-value pass, then the type check. */
  function ValidateFieldValue(value: string, fieldType: string, field: Field, o: Oracles): (r: Verdict)
    ensures IsRequired(field) && value == "" ==> r == Invalid(field.caption + " is required")
    ensures !IsRequired(field) && value == "" ==> r == Valid
    ensures !Checked(fieldType) ==> (r.Valid? <==> !(IsRequired(field) && value == ""))
    ensures r.Invalid? ==> StartsWith(r.error, field.caption + " ")
  {
    var fieldLabel := field.caption;
    if IsRequired(field) && value == "" then
      assert (fieldLabel + " is required")[..|fieldLabel + " "|] == fieldLabel + " ";
      Invalid(fieldLabel + " is required")
    else if value == "" then Valid
    else
      match TypeCheck(value, fieldType, field, o)
      case None => Valid
      case Some(tail) =>
        assert (fieldLabel + tail)[..|fieldLabel + " "|] == fieldLabel + " ";
        Invalid(fieldLabel + tail)
  }

  /** A select answer is accepted iff some option's id or label equals it; with no options it is unchecked. */
  lemma SelectAccepts(value: string, field: Field, o: Oracles)
    requires value != ""
    ensures MetaOptions(field).None? ==> ValidateFieldValue(value, "select", field, o) == Valid
    ensures MetaOptions(field).Some? ==>
      (ValidateFieldValue(value, "select", field, o).Valid? <==> OptionMatches(MetaOptions(field).value, value))
  {
    if MetaOptions(field).Some? {
      AnyOptionMatchesIff(MetaOptions(field).value, value);
    }
  }

  /** A multiselect answer is the one-element list of its text; every element must match an option. */
  lemma MultiselectAccepts(value: string, field: Field, o: Oracles)
    requires value != "" && MetaOptions(field).Some?
    ensures ValidateFieldValue(value, "multiselect", field, o).Valid? <==> OptionMatches(MetaOptions(field).value, value)
    ensures !OptionMatches(MetaOptions(field).value, value) ==>
      ValidateFieldValue(value, "multiselect", field, o) == Invalid(field.caption + " contains invalid options")
  {
    AnyOptionMatchesIff(MetaOptions(field).value, value);
    assert AllOptionsMatch(MetaOptions(field).value, [value]) <==> AnyOptionMatches(MetaOptions(field).value, value) by {
      assert [value][0] == value;
    }
  }

  /** A rating is accepted iff `parseInt` reads an integer between 1 and 5. */
  lemma RatingAccepts(value: string, field: Field, o: Oracles)
    requires value != ""
    ensures ValidateFieldValue(value, "rating", field, o).Valid? <==>
      (Js.ParseInt(value).Some? && 1 <= Js.ParseInt(value).value <= 5)
  {
  }

  /** Because `parseInt` reads a prefix, a rating digit followed by other text is accepted too. */
  lemma RatingReadsPrefix(n: int, tail: string, field: Field, o: Oracles)
    requires 1 <= n <= 5 && (|tail| == 0 || !IsDigit(tail[0]))
    ensures ValidateFieldValue(IntToString(n) + tail, "rating", field, o) == Valid
  {
    Js.ParseIntReadsDecimal(n, tail);
    assert IntToString(n) + tail != "" by {
      assert |NatToString(n)| > 0;
    }
  }

  /** A number must lie within the inclusive bounds; the message names the bounds that exist. */
  lemma NumberAccepts(value: string, field: Field, o: Oracles)
    requires value != ""
    ensures ValidateFieldValue(value, "number", field, o).Valid? <==>
      ValidateNumber(value, MetaMin(field), MetaMax(field), o)
    ensures MetaMin(field).Some? && MetaMax(field).Some? && !ValidateNumber(value, MetaMin(field), MetaMax(field), o) ==>
      ValidateFieldValue(value, "number", field, o) ==
        Invalid(field.caption + " must be a valid number" + " between " + IntToString(MetaMin(field).value) + " and " + IntToString(MetaMax(field).value))
    ensures MetaMin(field).Some? && MetaMax(field).None? && !ValidateNumber(value, MetaMin(field), MetaMax(field), o) ==>
      ValidateFieldValue(value, "number", field, o) ==
        Invalid(field.caption + " must be a valid number" + " at least " + IntToString(MetaMin(field).value))
    ensures MetaMin(field).None? && MetaMax(field).Some? && !ValidateNumber(value, MetaMin(field), MetaMax(field), o) ==>
      ValidateFieldValue(value, "number", field, o) ==
        Invalid(field.caption + " must be a valid number" + " at most " + IntToString(MetaMax(field).value))
  {
    var min, max := MetaMin(field), MetaMax(field);
    if ValidateNumber(value, min, max, o) {
      NumberValid(value, field, o);
    } else {
      NumberRejected(value, field, o);
      var tail := NumberErrorTail(min, max);
      var head := field.caption + " must be a valid number";
      if min.Some? && max.Some? {
        var lo, hi := IntToString(min.value), IntToString(max.value);
        assert tail == " must be a valid number" + (" between " + lo + " and " + hi);
        Text.Assoc(field.caption, " must be a valid number", " between " + lo + " and " + hi);
        Text.Assoc(head, " between " + lo + " and ", hi);
        Text.Assoc(head, " between " + lo, " and ");
        Text.Assoc(head, " between ", lo);
      } else if min.Some? {
        var lo := IntToString(min.value);
        assert tail == " must be a valid number" + (" at least " + lo);
        Text.Assoc(field.caption, " must be a valid number", " at least " + lo);
        Text.Assoc(head, " at least ", lo);
      } else if max.Some? {
        var hi := IntToString(max.value);
        assert tail == " must be a valid number" + (" at most " + hi);
        Text.Assoc(field.caption, " must be a valid number", " at most " + hi);
        Text.Assoc(head, " at most ", hi);
      }
    }
  }

  /** An accepted number answer is valid. */
  lemma NumberValid(value: string, field: Field, o: Oracles)
    requires value != "" && ValidateNumber(value, MetaMin(field), MetaMax(field), o)
    ensures ValidateFieldValue(value, "number", field, o) == Valid
  {
  }

  /** A rejected number answer reports the label followed by the bounds' tail. */
  lemma NumberRejected(value: string, field: Field, o: Oracles)
    requires value != "" && !ValidateNumber(value, MetaMin(field), MetaMax(field), o)
    ensures ValidateFieldValue(value, "number", field, o) == Invalid(field.caption + NumberErrorTail(MetaMin(field), MetaMax(field)))
  {
  }

  /** `getValidationErrorMessage`: the per-kind message, or the generic one. */
  function GetValidationErrorMessage(fieldType: string, fieldLabel: string): (r: string)
    ensures StartsWith(r, fieldLabel + " ")
    ensures !(fieldType in ["email", "phone", "url", "number", "date", "select", "multiselect", "rating"]) ==>
      r == fieldLabel + " is invalid"
  {
    var tail :=
      if fieldType == "email" then "must be a valid email address"
      else if fieldType == "phone" then "must be a valid phone number"
      else if fieldType == "url" then "must be a valid URL"
      else if fieldType == "number" then "must be a valid number"
      else if fieldType == "date" then "must be a valid date"
      else if fieldType == "select" then "must be a valid selection"
      else if fieldType == "multiselect" then "must contain valid selections"
      else if fieldType == "rating" then "must be between 1 and 5"
      else "is invalid";
    assert (fieldLabel + " " + tail)[..|fieldLabel + " "|] == fieldLabel + " ";
    fieldLabel + " " + tail
  }
}
