/**
 * Small string helpers of the chat server: start-command parsing, phone
 * normalisation, progress and duration formatting, and input sanitising.
 */
module Helpers {
  import opened Wrappers
  import opened Text
  import Js
  import opened Payload

  /** `getFormattedProgress`: `(current/total)`. */
  function FormattedProgress(current: int, total: int): (r: string)
    ensures |r| >= 5 && r[0] == '(' && r[|r| - 1] == ')'
  {
    "(" + IntToString(current) + "/" + IntToString(total) + ")"
  }

  /** Reads a leading decimal number: its value and the text after it. */
  function ReadNat(s: string): (r: Option<(nat, string)>)
    ensures r.Some? ==> |r.value.1| < |s|
  {
    var d := Js.DigitPrefix(s);
    if |d| == 0 then None else Some((DigitsValue(d), s[|d|..]))
  }

  /** A number written in decimal, then text that does not start with a digit, reads back as that number. */
  lemma ReadNatOf(n: nat, tail: string)
    requires |tail| == 0 || !IsDigit(tail[0])
    ensures ReadNat(NatToString(n) + tail) == Some((n, tail))
  {
    var digits := NatToString(n);
    Js.DigitPrefixOf(digits, tail);
    NatToStringRoundTrip(n);
    assert (digits + tail)[|digits|..] == tail;
  }

  /** The inverse of `FormattedProgress` for counts. */
  function ParseProgress(s: string): Option<(nat, nat)> {
    if |s| < 2 || s[0] != '(' then None
    else
      match ReadNat(s[1..])
      case None => None
      case Some((a, rest)) =>
        if |rest| == 0 || rest[0] != '/' then None
        else
          match ReadNat(rest[1..])
          case None => None
          case Some((b, rest2)) => if rest2 == ")" then Some((a, b)) else None
  }

  /** The progress label of counts reads back as those counts. */
  lemma ProgressRoundTrip(current: nat, total: nat)
    ensures ParseProgress(FormattedProgress(current, total)) == Some((current, total))
  {
    var s := FormattedProgress(current, total);
    var a := NatToString(current);
    var b := NatToString(total);
    assert s[1..] == a + ("/" + b + ")");
    ReadNatOf(current, "/" + b + ")");
    assert ("/" + b + ")")[1..] == b + ")";
    ReadNatOf(total, ")");
  }

  /** `extractFormKey`: the key of a message matching `^START:([a-zA-Z0-9]+)$`. */
  function ExtractFormKey(message: string): Option<string> {
    if StartsWith(message, "START:") && |message| > 6 && AllAlnum(message[6..]) then Some(message[6..]) else None
  }

  /** The key is recovered exactly from `START:` followed by a non-empty alphanumeric key, and from nothing else. */
  lemma ExtractFormKeyIff(message: string, key: string)
    ensures ExtractFormKey(message) == Some(key) <==> (message == "START:" + key && |key| > 0 && AllAlnum(key))
  {
    if message == "START:" + key {
      assert message[..6] == "START:" && message[6..] == key;
    }
    if ExtractFormKey(message) == Some(key) {
      assert message == message[..6] + message[6..];
    }
  }

  /** `isFormStartMessage`: starts with `START:` and has something after it. */
  predicate IsFormStartMessage(text: string) {
    StartsWith(text, "START:") && |text| > 6
  }

  /** Every text from which a key can be extracted counts as a start message, but not conversely. */
  lemma ExtractImpliesStart(message: string)
    ensures ExtractFormKey(message).Some? ==> IsFormStartMessage(message)
    ensures IsFormStartMessage("START:a b") && ExtractFormKey("START:a b").None?
  {
    assert "START:a b"[..6] == "START:";
    assert !IsAlnum("START:a b"[6..][1]);
  }

  /** `formatPhoneE164`: digits only, with a Nigerian `234` country code. */
  function FormatPhoneE164(phone: string): (r: string)
    ensures AllDigits(r) && StartsWith(r, "234")
  {
    var cleaned := KeepDigits(phone);
    if !StartsWith(cleaned, "234") then
      if StartsWith(cleaned, "0") then
        assert ("234" + cleaned[1..])[..3] == "234";
        "234" + cleaned[1..]
      else
        assert ("234" + cleaned)[..3] == "234";
        "234" + cleaned
    else cleaned
  }

  /** A leading `0` is the trunk prefix and is replaced by `234`; other digits are kept in order. */
  lemma FormatPhoneDigits(phone: string)
    ensures var c := KeepDigits(phone);
      FormatPhoneE164(phone) ==
        (if StartsWith(c, "234") then c else if StartsWith(c, "0") then "234" + c[1..] else "234" + c)
  {
  }

  /** Normalising twice is normalising once. */
  lemma FormatPhoneIdempotent(phone: string)
    ensures FormatPhoneE164(FormatPhoneE164(phone)) == FormatPhoneE164(phone)
  {
    KeepDigitsOfDigits(FormatPhoneE164(phone));
  }

  /** `isValidE164Phone`: `^\d{10,15}$` matched against the digits of the input. */
  function IsValidE164Phone(phone: string): (r: bool)
    ensures r <==> 10 <= |KeepDigits(phone)| <= 15
  {
    var digits := KeepDigits(phone);
    AllDigits(digits) && 10 <= |digits| <= 15
  }

  /** A local Nigerian number `0` + 10 digits normalises to a valid 13-digit international number. */
  lemma LocalNumberBecomesValid(local: string)
    requires |local| == 10 && AllDigits(local)
    ensures FormatPhoneE164("0" + local) == "234" + local
    ensures IsValidE164Phone(FormatPhoneE164("0" + local))
  {
    KeepDigitsOfDigits("0" + local);
    assert !StartsWith("0" + local, "234") by {
      assert ("0" + local)[0] == '0';
    }
    assert ("0" + local)[1..] == local;
    KeepDigitsOfDigits("234" + local);
  }

  /** `calculateCompletionPercentage`: the share of fields done after answering index `i`. */
  function CompletionPercentage(i: int, totalFields: nat): (r: int)
    ensures totalFields == 0 ==> r == 0
    ensures 0 <= i && i + 1 <= totalFields ==> 0 <= r <= 100
    ensures totalFields > 0 && i + 1 == totalFields ==> r == 100
  {
    if totalFields == 0 then 0
    else
      var r := Js.Percent(i + 1, totalFields);
      assert 0 <= i && i + 1 <= totalFields ==> 0 <= r <= 100 && (i + 1 == totalFields ==> r == 100) by {
        if 0 <= i && i + 1 <= totalFields {
          Js.PercentBounds(i + 1, totalFields);
        }
      }
      r
  }

  /** `formatCompletionTime` for whole seconds. */
  function FormatCompletionTime(seconds: int): (r: string)
    ensures |r| > 0
  {
    if seconds < 60 then IntToString(seconds) + "s"
    else
      var minutes := seconds / 60;
      var remainingSeconds := seconds % 60;
      if minutes < 60 then NatToString(minutes) + "m " + NatToString(remainingSeconds) + "s"
      else NatToString(minutes / 60) + "h " + NatToString(minutes % 60) + "m"
  }

  /** Reads back a duration written as `Ns`, `Mm Ss` or `Hh Mm`, in seconds. */
  function ParseCompletionTime(s: string): Option<nat> {
    match ReadNat(s)
    case None => None
    case Some((a, rest)) => ParseUnits(a, rest)
  }

  /** The part of a duration after its leading number `a`. */
  function ParseUnits(a: nat, rest: string): Option<nat> {
    if rest == "s" then Some(a)
    else if |rest| >= 2 && rest[..2] == "m " then
      match ReadNat(rest[2..])
      case None => None
      case Some((b, rest2)) => if rest2 == "s" then Some(a * 60 + b) else None
    else if |rest| >= 2 && rest[..2] == "h " then
      match ReadNat(rest[2..])
      case None => None
      case Some((b, rest2)) => if rest2 == "m" then Some(a * 3600 + b * 60) else None
    else None
  }

  /** After a leading number, parsing continues with the unit text. */
  lemma ParseAfterNumber(a: nat, t: string)
    requires |t| == 0 || !IsDigit(t[0])
    ensures ParseCompletionTime(NatToString(a) + t) == ParseUnits(a, t)
  {
    ReadNatOf(a, t);
  }

  lemma UnitsMinutes(a: nat, b: nat)
    ensures ParseUnits(a, "m " + NatToString(b) + "s") == Some(a * 60 + b)
  {
    var t := "m " + NatToString(b) + "s";
    assert t[..2] == "m " && t != "s";
    assert t[2..] == NatToString(b) + "s";
    ReadNatOf(b, "s");
  }

  lemma UnitsHours(a: nat, b: nat)
    ensures ParseUnits(a, "h " + NatToString(b) + "m") == Some(a * 3600 + b * 60)
  {
    var t := "h " + NatToString(b) + "m";
    assert |t| >= 3 && t[0] == 'h' && t[1] == ' ';
    assert t[..2] == "h ";
    assert t[..2] != "m " by {
      assert t[..2][0] == 'h';
    }
    assert t[2..] == NatToString(b) + "m";
    ReadNatOf(b, "m");
  }

  lemma ParseSecondsForm(a: nat)
    ensures ParseCompletionTime(NatToString(a) + "s") == Some(a)
  {
    ParseAfterNumber(a, "s");
  }

  lemma ParseMinutesForm(a: nat, b: nat)
    ensures ParseCompletionTime(NatToString(a) + "m " + NatToString(b) + "s") == Some(a * 60 + b)
  {
    var t := "m " + NatToString(b) + "s";
    assert NatToString(a) + "m " + NatToString(b) + "s" == NatToString(a) + t;
    ParseAfterNumber(a, t);
    UnitsMinutes(a, b);
  }

  lemma ParseHoursForm(a: nat, b: nat)
    ensures ParseCompletionTime(NatToString(a) + "h " + NatToString(b) + "m") == Some(a * 3600 + b * 60)
  {
    var t := "h " + NatToString(b) + "m";
    assert NatToString(a) + "h " + NatToString(b) + "m" == NatToString(a) + t;
    ParseAfterNumber(a, t);
    UnitsHours(a, b);
  }

  lemma HoursAndMinutes(m: nat)
    ensures (m / 60) * 3600 + (m % 60) * 60 == m * 60
  {
    var h := m / 60;
    var r := m % 60;
    assert m == h * 60 + r;
    calc {
      h * 3600 + r * 60;
      (h * 60 + r) * 60;
    }
  }

  /**
   * The formatted time denotes the input exactly below an hour; from an hour
   * on, the seconds are dropped and the minutes are kept.
   */
  lemma CompletionTimeRoundTrip(seconds: nat)
    ensures ParseCompletionTime(FormatCompletionTime(seconds)) ==
      Some(if seconds < 3600 then seconds else seconds / 60 * 60)
  {
    if seconds < 60 {
      assert FormatCompletionTime(seconds) == NatToString(seconds) + "s";
      ParseSecondsForm(seconds);
    } else if seconds < 3600 {
      MinutesRoundTrip(seconds);
    } else {
      HoursRoundTrip(seconds);
    }
  }

  /** From a minute to an hour, `Mm Ss` reads back as the exact seconds. */
  lemma MinutesRoundTrip(seconds: nat)
    requires 60 <= seconds < 3600
    ensures ParseCompletionTime(FormatCompletionTime(seconds)) == Some(seconds)
  {
    var m := seconds / 60;
    assert m < 60;
    assert FormatCompletionTime(seconds) == NatToString(m) + "m " + NatToString(seconds % 60) + "s";
    ParseMinutesForm(m, seconds % 60);
  }

  /** From an hour on, `Hh Mm` reads back as the whole minutes, in seconds. */
  lemma HoursRoundTrip(seconds: nat)
    requires 3600 <= seconds
    ensures ParseCompletionTime(FormatCompletionTime(seconds)) == Some(seconds / 60 * 60)
  {
    var m := seconds / 60;
    assert m >= 60;
    assert FormatCompletionTime(seconds) == NatToString(m / 60) + "h " + NatToString(m % 60) + "m";
    ParseHoursForm(m / 60, m % 60);
    HoursAndMinutes(m);
  }

  /** The punctuation `sanitizeString` keeps. */
  predicate Punctuation(c: char) {
    c in "-.,!?@#$%&()"
  }

  predicate Allowed(c: char) {
    IsWordChar(c) || IsSpace(c) || Punctuation(c)
  }

  predicate AllAllowed(s: string) {
    forall k :: 0 <= k < |s| ==> Allowed(s[k])
  }

  /** `s.replace(/[^\w\s\-.,!?@#$%&()]/g, '')` */
  function KeepAllowed(s: string): (r: string)
    ensures AllAllowed(r) && |r| <= |s|
  {
    if |s| == 0 then ""
    else if Allowed(s[0]) then [s[0]] + KeepAllowed(s[1..])
    else KeepAllowed(s[1..])
  }

  /** `s.substring(0, n)` */
  function Prefix(s: string, n: int): (r: string)
    ensures |r| <= |s| && (n >= 0 ==> |r| <= n) && (n < 0 ==> r == "")
    ensures StartsWith(s, r)
  {
    if n <= 0 then "" else if n >= |s| then s else s[..n]
  }

  /** `sanitizeString(str, maxLength)`: trimmed, cut to `maxLength`, disallowed characters removed. */
  function SanitizeString(str: string, maxLength: int := 500): (r: string)
    ensures AllAllowed(r)
    ensures maxLength >= 0 ==> |r| <= maxLength
    ensures |r| <= |str|
  {
    KeepAllowed(Prefix(Trim(str), maxLength))
  }

  lemma {:induction false} KeepAllowedOfAllowed(s: string)
    requires AllAllowed(s)
    ensures KeepAllowed(s) == s
  {
    if |s| > 0 {
      KeepAllowedOfAllowed(s[1..]);
    }
  }

  /** Text that is already trimmed, short enough and made of allowed characters passes unchanged. */
  lemma SanitizeKeepsClean(str: string, maxLength: int)
    requires AllAllowed(str) && |str| <= maxLength
    requires |str| == 0 || (!IsSpace(str[0]) && !IsSpace(str[|str| - 1]))
    ensures SanitizeString(str, maxLength) == str
  {
    assert TrimStart(str) == str;
    assert TrimEnd(str) == str;
    KeepAllowedOfAllowed(str);
  }

  datatype InteractiveReply = InteractiveReply(kind: string, id: string, title: string)

  /** `parseInteractiveMessage`: a button reply wins over a list reply; neither gives null. */
  function ParseInteractiveMessage(m: WaMessage): (r: Option<InteractiveReply>)
    ensures r.None? <==> (m.interactive.None? || (m.interactive.value.buttonReply.None? && m.interactive.value.listReply.None?))
    ensures r.Some? && m.interactive.value.buttonReply.Some? ==>
      r.value == InteractiveReply("button_reply", m.interactive.value.buttonReply.value.id, m.interactive.value.buttonReply.value.title)
    ensures r.Some? && m.interactive.value.buttonReply.None? ==>
      r.value == InteractiveReply("list_reply", m.interactive.value.listReply.value.id, m.interactive.value.listReply.value.title)
  {
    if m.interactive.Some? && m.interactive.value.buttonReply.Some? then
      var b := m.interactive.value.buttonReply.value;
      Some(InteractiveReply("button_reply", b.id, b.title))
    else if m.interactive.Some? && m.interactive.value.listReply.Some? then
      var l := m.interactive.value.listReply.value;
      Some(InteractiveReply("list_reply", l.id, l.title))
    else None
  }
}
