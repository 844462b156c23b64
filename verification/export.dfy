/**
 * The response export endpoint of `server/api/responses/export.get.ts`: its
 * checks in order, the CSV header and rows, and the JSON entries.  The CSV
 * cells are read back with a record parser that follows section 2 of
 * RFC 4180 (fields separated by commas; a quoted field may hold commas and
 * writes a quote as two quotes).  Timestamps reach the output through the
 * `stamp` rendering parameter.
 */
module Export {
  import opened Wrappers
  import opened Text
  import Js
  import opened Records
  import Sorting
  import SessionManager
  import FormCompiler
  import opened Http

  // ------------------------------------------------------------ quoting

  /** Every `"` doubled (`replace(/"/g, '""')`). */
  function Escape(s: string): (r: string)
    ensures |r| >= |s|
  {
    if |s| == 0 then "" else (if s[0] == '"' then "\"\"" else [s[0]]) + Escape(s[1..])
  }

  /** A quoted cell: `"` + the escaped text + `"`. */
  function Quote(s: string): (r: string)
    ensures |r| >= 2 && r[0] == '"' && r[|r| - 1] == '"'
  {
    "\"" + Escape(s) + "\""
  }

  /** Reads a quoted field's text after its opening quote: the text and what follows the closing quote. */
  function ReadQuoted(s: string): (r: Option<(string, string)>)
    ensures r.Some? ==> |r.value.1| < |s|
    decreases |s|
  {
    if |s| == 0 then None
    else if s[0] == '"' then
      if |s| >= 2 && s[1] == '"' then
        match ReadQuoted(s[2..])
        case None => None
        case Some((c, rest)) => Some(("\"" + c, rest))
      else Some(("", s[1..]))
    else
      match ReadQuoted(s[1..])
      case None => None
      case Some((c, rest)) => Some(([s[0]] + c, rest))
  }

  /** Reads an unquoted field: the text up to the next comma, and the rest from that comma. */
  function ReadPlain(s: string): (r: (string, string))
    ensures r.0 + r.1 == s && (|r.1| == 0 || r.1[0] == ',')
    ensures forall k :: 0 <= k < |r.0| ==> r.0[k] != ','
  {
    if |s| == 0 then ("", "")
    else if s[0] == ',' then ("", s)
    else
      var (f, rest) := ReadPlain(s[1..]);
      ([s[0]] + f, rest)
  }

  /** The fields of one CSV record, or None when a quoted field is malformed. */
  function ParseRecord(s: string): (r: Option<seq<string>>)
    ensures r.Some? ==> |r.value| > 0
    decreases |s|
  {
    if |s| > 0 && s[0] == '"' then
      match ReadQuoted(s[1..])
      case None => None
      case Some((c, rest)) =>
        if |rest| == 0 then Some([c])
        else if rest[0] != ',' then None
        else
          match ParseRecord(rest[1..])
          case None => None
          case Some(more) => Some([c] + more)
    else
      var (f, rest) := ReadPlain(s);
      if |rest| == 0 then Some([f])
      else
        match ParseRecord(rest[1..])
        case None => None
        case Some(more) => Some([f] + more)
  }

  /** Reading an escaped text back: the closing quote ends it exactly where it was written. */
  lemma {:induction false} ReadQuotedEscape(c: string, rest: string)
    requires |rest| == 0 || rest[0] != '"'
    ensures ReadQuoted(Escape(c) + "\"" + rest) == Some((c, rest))
    decreases |c|
  {
    var s := Escape(c) + "\"" + rest;
    if |c| == 0 {
      assert s == "\"" + rest;
    } else if c[0] == '"' {
      ReadQuotedEscape(c[1..], rest);
      assert s == "\"\"" + (Escape(c[1..]) + "\"" + rest);
      assert s[2..] == Escape(c[1..]) + "\"" + rest;
      assert "\"" + c[1..] == c;
    } else {
      ReadQuotedEscape(c[1..], rest);
      assert s == [c[0]] + (Escape(c[1..]) + "\"" + rest);
      assert s[1..] == Escape(c[1..]) + "\"" + rest;
      assert [c[0]] + c[1..] == c;
    }
  }

  function QuoteAll(cells: seq<string>): (r: seq<string>)
    ensures |r| == |cells| && forall k :: 0 <= k < |cells| ==> r[k] == Quote(cells[k])
  {
    seq(|cells|, k requires 0 <= k < |cells| => Quote(cells[k]))
  }

  /** A record of quoted cells reads back as exactly those cells. */
  lemma {:induction false} QuotedRecordRoundTrip(cells: seq<string>)
    requires |cells| > 0
    ensures ParseRecord(Join(QuoteAll(cells), ",")) == Some(cells)
    decreases |cells|
  {
    var parts := QuoteAll(cells);
    var s := Join(parts, ",");
    if |cells| == 1 {
      assert s == Quote(cells[0]);
      ReadQuotedEscape(cells[0], "");
      assert s[1..] == Escape(cells[0]) + "\"" + "";
      assert s[0] == '"';
      assert cells == [cells[0]];
    } else {
      var tail := Join(QuoteAll(cells[1..]), ",");
      assert parts[1..] == QuoteAll(cells[1..]);
      assert s == "\"" + (Escape(cells[0]) + "\"" + ("," + tail));
      ReadQuotedEscape(cells[0], "," + tail);
      assert s[1..] == Escape(cells[0]) + "\"" + ("," + tail);
      QuotedRecordRoundTrip(cells[1..]);
      assert ("," + tail)[1..] == tail;
      assert [cells[0]] + cells[1..] == cells;
    }
  }

  // ------------------------------------------------------------ rows

  /** The seven fixed column names. */
  const FixedHeaders: seq<string> := ["Phone", "Name", "Status", "Source", "Started At", "Completed At", "Completion Time (seconds)"]

  function Labels(fields: seq<Field>): (r: seq<string>)
    ensures |r| == |fields| && forall k :: 0 <= k < |fields| ==> r[k] == fields[k].caption
  {
    seq(|fields|, k requires 0 <= k < |fields| => fields[k].caption)
  }

  /** The stored answer to a field: the first of the response's values for it (`find`). */
  function AnswerFor(values: seq<ValueRow>, fieldId: string): (r: Option<string>)
    ensures r.Some? <==> exists v :: v in values && v.fieldId == fieldId
    ensures r.Some? ==> exists v :: v in values && v.fieldId == fieldId && v.value == r.value
  {
    if |values| == 0 then None
    else if values[0].fieldId == fieldId then Some(values[0].value)
    else
      assert forall v :: v in values[1..] ==> v in values;
      assert forall v :: v in values && v != values[0] ==> v in values[1..];
      AnswerFor(values[1..], fieldId)
  }

  /** The seven fixed cells of a response, each `x || ''` where the source writes it that way. */
  function FixedCells(s: Session, stamp: int -> string): (r: seq<string>)
    ensures |r| == 7 && r[0] == s.phone && r[2] == StatusName(s.status) && r[3] == s.source
  {
    [s.phone,
     Js.OrElse(s.name, ""),
     StatusName(s.status),
     s.source,
     stamp(s.createdAt),
     if s.completedAt.Some? then stamp(s.completedAt.value) else "",
     if s.completionTime.Some? && s.completionTime.value != 0 then IntToString(s.completionTime.value) else ""]
  }

  /** One answer cell: the quoted answer, or `""` when there is none. */
  function AnswerCell(values: seq<ValueRow>, f: Field): string {
    match AnswerFor(values, f.id)
    case Some(v) => Quote(v)
    case None => "\"\""
  }

  /** The unquoted text of each answer cell. */
  function AnswerTexts(values: seq<ValueRow>, fields: seq<Field>): (r: seq<string>)
    ensures |r| == |fields|
  {
    seq(|fields|, k requires 0 <= k < |fields| => AnswerFor(values, fields[k].id).GetOr(""))
  }

  /** The cells a row stands for: the fixed ones, then one answer per field in field order. */
  function RowCells(s: Session, values: seq<ValueRow>, fields: seq<Field>, stamp: int -> string): (r: seq<string>)
    ensures |r| == 7 + |fields|
  {
    FixedCells(s, stamp) + AnswerTexts(values, fields)
  }

  /** The CSV header as written: every name wrapped in quotes, with no escaping. */
  function HeaderLine(fields: seq<Field>): string {
    var names := FixedHeaders + Labels(fields);
    Join(seq(|names|, k requires 0 <= k < |names| => "\"" + names[k] + "\""), ",")
  }

  /** A CSV row as written: the fixed cells raw, the answer cells quoted. */
  function RowLine(s: Session, values: seq<ValueRow>, fields: seq<Field>, stamp: int -> string): string {
    var answers := seq(|fields|, k requires 0 <= k < |fields| => AnswerCell(values, fields[k]));
    Join(FixedCells(s, stamp) + answers, ",")
  }

  /** The sample response of the counterexample below: one whose name holds a comma. */
  function CommaSession(): Session {
    Session(1, "f", "1", Some("a,b"), Abandoned, "", 1, None, 0, 0, 0, None, None)
  }

  function SampleField(): Field {
    Field("q", "f", "q", "text", "Q", None, None, 0, None)
  }

  /** A cell the parser reads back unchanged without quotes: no comma, and no opening quote. */
  predicate Plain(c: string) {
    (forall k :: 0 <= k < |c| ==> c[k] != ',') && (|c| == 0 || c[0] != '"')
  }

  lemma {:induction false} ReadPlainOf(c: string, rest: string)
    requires forall k :: 0 <= k < |c| ==> c[k] != ','
    requires |rest| == 0 || rest[0] == ','
    ensures ReadPlain(c + rest) == (c, rest)
    decreases |c|
  {
    if |c| == 0 {
      assert c + rest == rest;
    } else {
      ReadPlainOf(c[1..], rest);
      assert (c + rest)[1..] == c[1..] + rest;
      assert [c[0]] + c[1..] == c;
    }
  }

  /** A record of plain cells followed by quoted ones reads back as the cells and the quoted texts. */
  lemma {:induction false} ParseMixed(plain: seq<string>, quoted: seq<string>)
    requires |plain| + |quoted| > 0
    requires forall k :: 0 <= k < |plain| ==> Plain(plain[k])
    ensures ParseRecord(Join(plain + QuoteAll(quoted), ",")) == Some(plain + quoted)
    decreases |plain|
  {
    var parts := plain + QuoteAll(quoted);
    if |plain| == 0 {
      assert parts == QuoteAll(quoted);
      QuotedRecordRoundTrip(quoted);
      assert plain + quoted == quoted;
    } else {
      var c := plain[0];
      assert Plain(c);
      if |parts| == 1 {
        assert Join(parts, ",") == c + "";
        ReadPlainOf(c, "");
        assert plain + quoted == [c];
      } else {
        var tail := Join(parts[1..], ",");
        assert parts[1..] == plain[1..] + QuoteAll(quoted);
        assert Join(parts, ",") == c + ("," + tail);
        ReadPlainOf(c, "," + tail);
        ParseMixed(plain[1..], quoted);
        assert ("," + tail)[1..] == tail;
        assert [c] + (plain[1..] + quoted) == plain + quoted;
      }
    }
  }

  lemma AnswersQuoted(values: seq<ValueRow>, fields: seq<Field>)
    ensures seq(|fields|, k requires 0 <= k < |fields| => AnswerCell(values, fields[k])) == QuoteAll(AnswerTexts(values, fields))
  {
    forall k | 0 <= k < |fields| ensures AnswerCell(values, fields[k]) == Quote(AnswerTexts(values, fields)[k]) {
      AnswerCellsQuoted(values, fields[k]);
    }
  }

  lemma JoinCons(x: string, ys: seq<string>)
    requires |ys| > 0
    ensures Join([x] + ys, ",") == x + "," + Join(ys, ",")
  {
    assert ([x] + ys)[1..] == ys;
  }

  lemma CommaAssoc(a: string, b: string, rest: string)
    ensures (a + "," + b) + "," + rest == a + "," + (b + "," + rest)
  {
  }

  /** Writing `a,b` as one cell gives the same text as writing `a` and `b` as two. */
  lemma JoinSplitsCell(x: string, a: string, b: string, ys: seq<string>)
    requires |ys| > 0
    ensures Join([x] + ([a + "," + b] + ys), ",") == Join([x] + ([a] + ([b] + ys)), ",")
  {
    var rest := Join(ys, ",");
    var bs := [b] + ys;
    var abs := [a] + bs;
    var cs := [a + "," + b] + ys;
    JoinCons(b, ys);
    JoinCons(a, bs);
    JoinCons(a + "," + b, ys);
    CommaAssoc(a, b, rest);
    assert Join(cs, ",") == Join(abs, ",");
    JoinCons(x, cs);
    JoinCons(x, abs);
  }

  /**
   * The row as written, read back: a name `a,b` whose parts are plain comes
   * back as two cells `a` and `b`, so the row has one cell more than the
   * header has columns and every later cell sits under the wrong name.
   */
  lemma CommaInNameSplitsRow(s: Session, values: seq<ValueRow>, fields: seq<Field>, stamp: int -> string, a: string, b: string)
    requires s.name == Some(a + "," + b) && Plain(a) && Plain(b)
    requires forall k :: 0 <= k < 7 && k != 1 ==> Plain(FixedCells(s, stamp)[k])
    ensures var cells := FixedCells(s, stamp);
      var read := [cells[0], a, b] + cells[2..] + AnswerTexts(values, fields);
      && ParseRecord(RowLine(s, values, fields, stamp)) == Some(read)
      && |read| == |FixedHeaders + Labels(fields)| + 1
  {
    var cells := FixedCells(s, stamp);
    var texts := AnswerTexts(values, fields);
    AnswersQuoted(values, fields);
    assert RowLine(s, values, fields, stamp) == Join(cells + QuoteAll(texts), ",");
    SplitCellReadBack(cells, texts, a, b);
  }

  lemma SplitCellReadBack(cells: seq<string>, texts: seq<string>, a: string, b: string)
    requires |cells| >= 3 && cells[1] == a + "," + b && Plain(a) && Plain(b)
    requires forall k :: 0 <= k < |cells| && k != 1 ==> Plain(cells[k])
    ensures ParseRecord(Join(cells + QuoteAll(texts), ",")) == Some([cells[0], a, b] + cells[2..] + texts)
  {
    var answers := QuoteAll(texts);
    var split := [cells[0], a, b] + cells[2..];
    JoinOfSplit(cells, answers, a, b);
    SplitIsPlain(cells, a, b);
    ParseMixed(split, texts);
    assert split + texts == [cells[0], a, b] + cells[2..] + texts;
  }

  lemma JoinOfSplit(cells: seq<string>, answers: seq<string>, a: string, b: string)
    requires |cells| >= 3 && cells[1] == a + "," + b
    ensures Join(cells + answers, ",") == Join([cells[0], a, b] + cells[2..] + answers, ",")
  {
    var tail := cells[2..] + answers;
    assert cells + answers == [cells[0]] + ([a + "," + b] + tail);
    assert [cells[0], a, b] + cells[2..] + answers == [cells[0]] + ([a] + ([b] + tail));
    JoinSplitsCell(cells[0], a, b, tail);
  }

  lemma SplitIsPlain(cells: seq<string>, a: string, b: string)
    requires |cells| >= 2 && Plain(a) && Plain(b)
    requires forall k :: 0 <= k < |cells| && k != 1 ==> Plain(cells[k])
    ensures forall k :: 0 <= k < |[cells[0], a, b] + cells[2..]| ==> Plain(([cells[0], a, b] + cells[2..])[k])
  {
    var split := [cells[0], a, b] + cells[2..];
    forall k | 0 <= k < |split| ensures Plain(split[k]) {
      if k >= 3 { assert split[k] == cells[k - 1]; }
    }
  }

  /**
   * A concrete case: a response named `a,b`, for a form with one unanswered
   * field, reads back as nine cells under an eight-column header.
   */
  lemma CommaInNameShiftsColumns()
    ensures |FixedHeaders + Labels([SampleField()])| == 8
    ensures ParseRecord(RowLine(CommaSession(), [], [SampleField()], (t: int) => "T")) == Some(["1", "a", "b", "abandoned", "", "T", "", "", ""])
  {
    var stamp := (t: int) => "T";
    var cells := FixedCells(CommaSession(), stamp);
    assert cells == ["1", "a,b", "abandoned", "", "T", "", ""];
    assert "a" + "," + "b" == "a,b";
    assert Plain("a") && Plain("b") && Plain("1") && Plain("abandoned") && Plain("") && Plain("T");
    CommaInNameSplitsRow(CommaSession(), [], [SampleField()], stamp, "a", "b");
    assert AnswerTexts([], [SampleField()]) == [""];
    assert [cells[0], "a", "b"] + cells[2..] + [""] == ["1", "a", "b", "abandoned", "", "T", "", "", ""];
  }

  /** The header with every name escaped and quoted. */
  function HeaderLineFixed(fields: seq<Field>): string {
    Join(QuoteAll(FixedHeaders + Labels(fields)), ",")
  }

  /** A row with every cell escaped and quoted. */
  function RowLineFixed(s: Session, values: seq<ValueRow>, fields: seq<Field>, stamp: int -> string): string {
    Join(QuoteAll(RowCells(s, values, fields, stamp)), ",")
  }

  /**
   * With every cell quoted, the header reads back as the seven names and
   * the labels, and each row as its seven fixed cells followed by the
   * answers in field order, so rows and header always have the same
   * number of columns, whatever the cells contain.
   */
  lemma FixedLinesReadBack(s: Session, values: seq<ValueRow>, fields: seq<Field>, stamp: int -> string)
    ensures ParseRecord(HeaderLineFixed(fields)) == Some(FixedHeaders + Labels(fields))
    ensures ParseRecord(RowLineFixed(s, values, fields, stamp)) == Some(RowCells(s, values, fields, stamp))
    ensures |FixedHeaders + Labels(fields)| == |RowCells(s, values, fields, stamp)|
  {
    QuotedRecordRoundTrip(FixedHeaders + Labels(fields));
    QuotedRecordRoundTrip(RowCells(s, values, fields, stamp));
  }

  /** Each answer cell as written is already the quoted form: only the fixed cells go unquoted. */
  lemma AnswerCellsQuoted(values: seq<ValueRow>, f: Field)
    ensures AnswerCell(values, f) == Quote(AnswerFor(values, f.id).GetOr(""))
  {
    if AnswerFor(values, f.id).None? {
      assert Escape("") == "";
    }
  }

  // ------------------------------------------------------------ JSON

  /** `value?.value || null`: an answer, with a missing or empty one read as null. */
  function JsonValue(values: seq<ValueRow>, f: Field): (r: Option<string>)
    ensures r.Some? ==> |r.value| > 0
  {
    var a := AnswerFor(values, f.id);
    if a.Some? && |a.value| > 0 then a else None
  }

  /** `acc[key] = value` on an object: an existing key keeps its place and takes the value; a new key goes last. */
  function SetKey(acc: seq<(string, Option<string>)>, key: string, value: Option<string>): (r: seq<(string, Option<string>)>)
    ensures |r| == |acc| || |r| == |acc| + 1
  {
    if |acc| == 0 then [(key, value)]
    else if acc[0].0 == key then [(key, value)] + acc[1..]
    else [acc[0]] + SetKey(acc[1..], key, value)
  }

  /** The value under a key. */
  function Lookup(acc: seq<(string, Option<string>)>, key: string): Option<Option<string>> {
    if |acc| == 0 then None else if acc[0].0 == key then Some(acc[0].1) else Lookup(acc[1..], key)
  }

  /** The `responses` object of one entry: the fields folded in order. */
  function JsonAnswers(values: seq<ValueRow>, fields: seq<Field>): seq<(string, Option<string>)>
    decreases |fields|
  {
    if |fields| == 0 then []
    else
      var n := |fields| - 1;
      SetKey(JsonAnswers(values, fields[..n]), fields[n].caption, JsonValue(values, fields[n]))
  }

  lemma {:induction false} SetKeyLookup(acc: seq<(string, Option<string>)>, key: string, value: Option<string>, other: string)
    ensures Lookup(SetKey(acc, key, value), key) == Some(value)
    ensures other != key ==> Lookup(SetKey(acc, key, value), other) == Lookup(acc, other)
  {
    if |acc| > 0 && acc[0].0 != key {
      SetKeyLookup(acc[1..], key, value, other);
    }
  }

  /**
   * Every title maps to the answer of the last field carrying it (the
   * earlier ones are overwritten), and a title no field carries is absent.
   */
  lemma {:induction false} JsonAnswersByLabel(values: seq<ValueRow>, fields: seq<Field>, title: string)
    ensures (forall k :: 0 <= k < |fields| ==> fields[k].caption != title) ==> Lookup(JsonAnswers(values, fields), title).None?
    ensures forall k :: (0 <= k < |fields| && fields[k].caption == title
                         && forall j :: k < j < |fields| ==> fields[j].caption != title) ==>
      Lookup(JsonAnswers(values, fields), title) == Some(JsonValue(values, fields[k]))
    decreases |fields|
  {
    if |fields| > 0 {
      var n := |fields| - 1;
      var init := fields[..n];
      var acc := JsonAnswers(values, init);
      assert JsonAnswers(values, fields) == SetKey(acc, fields[n].caption, JsonValue(values, fields[n]));
      JsonAnswersByLabel(values, init, title);
      SetKeyLookup(acc, fields[n].caption, JsonValue(values, fields[n]), title);
      if fields[n].caption == title {
        assert Lookup(JsonAnswers(values, fields), title) == Some(JsonValue(values, fields[n]));
        forall k | 0 <= k < |fields| && fields[k].caption == title && (forall j :: k < j < |fields| ==> fields[j].caption != title)
          ensures k == n
        {
        }
      } else {
        assert Lookup(JsonAnswers(values, fields), title) == Lookup(acc, title);
        forall k | 0 <= k < n ensures init[k] == fields[k] { }
      }
    }
  }

  datatype JsonEntry = JsonEntry(
    phone: string,
    name: Option<string>,
    status: string,
    source: string,
    startedAt: string,
    completedAt: Option<string>,
    completionTime: Option<int>,
    answers: seq<(string, Option<string>)>)

  function Entry(s: Session, values: seq<ValueRow>, fields: seq<Field>, stamp: int -> string): JsonEntry {
    JsonEntry(
      s.phone, s.name, StatusName(s.status), s.source, stamp(s.createdAt),
      if s.completedAt.Some? then Some(stamp(s.completedAt.value)) else None,
      s.completionTime,
      JsonAnswers(values, fields))
  }

  // ------------------------------------------------------------ the endpoint

  datatype ExportQuery = ExportQuery(formId: Option<string>, format: Option<string>, status: Option<string>)

  datatype Body = CsvLines(lines: seq<string>) | JsonEntries(entries: seq<JsonEntry>)

  datatype ExportFile = ExportFile(contentType: string, filename: string, body: Body)

  /** The document text of CSV lines: each line followed by a newline. */
  function CsvText(lines: seq<string>): string {
    if |lines| == 0 then "" else lines[0] + "\n" + CsvText(lines[1..])
  }

  /** `(format || 'csv').toLowerCase()`. */
  function Format(q: ExportQuery): string {
    ToLower(Js.OrElse(q.format, "csv"))
  }

  /** The form's responses, narrowed to the status when one is given, newest first. */
  function Selected(store: Store, formId: string, status: Option<string>): (r: seq<Session>)
    ensures forall s :: s in r <==> s in store.responses && s.formId == formId && (Js.Truthy(status) ==> StatusName(s.status) == status.value)
    ensures forall i, j :: 0 <= i < j < |r| ==> r[i].createdAt >= r[j].createdAt
  {
    var rows := FormResponses(store.responses, formId, status);
    var sorted := Sorting.SortBy(rows, SessionManager.NegCreatedAt);
    assert forall s :: s in sorted <==> s in rows by {
      forall s ensures s in sorted <==> s in rows {
        Sorting.SortBySameRows(rows, SessionManager.NegCreatedAt, s);
      }
    }
    assert forall i, j :: 0 <= i < j < |sorted| ==> SessionManager.NegCreatedAt(sorted[i]) <= SessionManager.NegCreatedAt(sorted[j]);
    sorted
  }

  function FormResponses(rs: seq<Session>, formId: string, status: Option<string>): (r: seq<Session>)
    ensures forall s :: s in r <==> s in rs && s.formId == formId && (Js.Truthy(status) ==> StatusName(s.status) == status.value)
  {
    if |rs| == 0 then []
    else
      var rest := FormResponses(rs[1..], formId, status);
      assert forall s :: s in rs <==> s == rs[0] || s in rs[1..];
      if rs[0].formId == formId && (Js.Truthy(status) ==> StatusName(rs[0].status) == status.value) then [rs[0]] + rest else rest
  }

  /**
   * The export handler up to its headers: the checks, then the file named
   * after the form's title.  `user` is the id of the authenticated caller,
   * if any; `now` names the file.  Database failures are not modelled.
   */
  function Build(user: Option<string>, q: ExportQuery, store: Store, stamp: int -> string, now: int): (r: Response<ExportFile>)
    ensures user.None? ==> r == Fail(401, "Unauthorized")
    ensures user.Some? && !Js.Truthy(q.formId) ==> r == Fail(400, "Missing required parameter: form_id")
    ensures user.Some? && Js.Truthy(q.formId) && Format(q) != "csv" && Format(q) != "json" ==> r == Fail(400, "Invalid format. Use csv or json")
    ensures r.Body? ==> user.Some? && Js.Truthy(q.formId) && |Selected(store, q.formId.value, q.status)| > 0
    ensures r.Body? ==> (r.body.body.CsvLines? <==> Format(q) == "csv")
    ensures user.Some? && Js.Truthy(q.formId) && (Format(q) == "csv" || Format(q) == "json") ==>
      var form := Single(FormCompiler.FormsWithId(store.forms, q.formId.value));
      && (form.None? ==> r == Fail(404, "Form not found"))
      && (form.Some? && form.value.ownerId != user.value ==> r == Fail(403, "Access denied"))
      && (form.Some? && form.value.ownerId == user.value ==>
            if |Selected(store, q.formId.value, q.status)| == 0 then r == Fail(404, "No responses found")
            else r.Body?)
  {
    if user.None? then Fail(401, "Unauthorized")
    else if !Js.Truthy(q.formId) then Fail(400, "Missing required parameter: form_id")
    else
      var formId := q.formId.value;
      var format := Format(q);
      if format != "csv" && format != "json" then Fail(400, "Invalid format. Use csv or json")
      else
        match Single(FormCompiler.FormsWithId(store.forms, formId))
        case None => Fail(404, "Form not found")
        case Some(form) =>
          if form.ownerId != user.value then Fail(403, "Access denied")
          else
            var fields := FormFields(store.fields, formId);
            var responses := Selected(store, formId, q.status);
            if |responses| == 0 then Fail(404, "No responses found")
            else if format == "json" then
              var entries := seq(|responses|, k requires 0 <= k < |responses| =>
                Entry(responses[k], ValuesOf(store.values, responses[k].id), fields, stamp));
              Body(ExportFile("application/json", form.title + "_responses_" + IntToString(now) + ".json", JsonEntries(entries)))
            else
              var rows := seq(|responses|, k requires 0 <= k < |responses| =>
                RowLine(responses[k], ValuesOf(store.values, responses[k].id), fields, stamp));
              Body(ExportFile("text/csv", form.title + "_responses_" + IntToString(now) + ".csv", CsvLines([HeaderLine(fields)] + rows)))
  }

  /** The `Content-Disposition` header sent with an export. */
  function Disposition(file: ExportFile): string {
    "attachment; filename=\"" + file.filename + "\""
  }

  // ------------------------------------------------------------ header values

  /** A character Node.js lets into a header value: a tab, printable ASCII, or U+0080 to U+00FF. */
  predicate HeaderChar(c: char) {
    c == '\t' || (' ' <= c <= '~') || ('\U{80}' <= c <= '\U{FF}')
  }

  /** A text `setHeader` accepts as a value. */
  predicate HeaderSafe(s: string) {
    forall i :: 0 <= i < |s| ==> HeaderChar(s[i])
  }

  lemma HeaderSafeJoin(a: string, b: string)
    ensures HeaderSafe(a + b) <==> HeaderSafe(a) && HeaderSafe(b)
  {
    if HeaderSafe(a) && HeaderSafe(b) {
      forall i | 0 <= i < |a + b| ensures HeaderChar((a + b)[i]) {
        if i < |a| { assert (a + b)[i] == a[i]; } else { assert (a + b)[i] == b[i - |a|]; }
      }
    }
    if HeaderSafe(a + b) {
      forall i | 0 <= i < |a| ensures HeaderChar(a[i]) { assert a[i] == (a + b)[i]; }
      forall i | 0 <= i < |b| ensures HeaderChar(b[i]) { assert b[i] == (a + b)[|a| + i]; }
    }
  }

  /** A number in decimal, with its sign, goes into a header as it is. */
  lemma NumberHeaderSafe(n: int)
    ensures HeaderSafe(IntToString(n))
  {
    if n < 0 {
      HeaderSafeJoin("-", NatToString(-n));
    }
  }

  /** The disposition of a file named `<title>_responses_<now><ext>` is a header value exactly when the title is. */
  lemma DispositionSafe(title: string, now: int, ext: string)
    requires ext == ".csv" || ext == ".json"
    ensures HeaderSafe(Disposition(ExportFile("", title + "_responses_" + IntToString(now) + ext, CsvLines([]))))
      <==> HeaderSafe(title)
  {
    var name := title + "_responses_" + IntToString(now) + ext;
    NumberHeaderSafe(now);
    HeaderSafeJoin(title, "_responses_");
    HeaderSafeJoin(title + "_responses_", IntToString(now));
    HeaderSafeJoin(title + "_responses_" + IntToString(now), ext);
    HeaderSafeJoin("attachment; filename=\"", name);
    HeaderSafeJoin("attachment; filename=\"" + name, "\"");
  }

  /**
   * The export handler as written.  `setHeader` throws on a disposition
   * holding a character outside tab, printable ASCII and U+0080 to U+00FF,
   * and the catch-all answers 500, so a form whose title has such a
   * character (Arabic, CJK, an emoji) cannot be exported.
   */
  function ExportResponses(user: Option<string>, q: ExportQuery, store: Store, stamp: int -> string, now: int): (r: Response<ExportFile>)
    ensures user.None? ==> r == Fail(401, "Unauthorized")
    ensures user.Some? && !Js.Truthy(q.formId) ==> r == Fail(400, "Missing required parameter: form_id")
    ensures user.Some? && Js.Truthy(q.formId) && Format(q) != "csv" && Format(q) != "json" ==> r == Fail(400, "Invalid format. Use csv or json")
    ensures r.Body? ==> user.Some? && Js.Truthy(q.formId) && |Selected(store, q.formId.value, q.status)| > 0
    ensures r.Body? ==> (r.body.body.CsvLines? <==> Format(q) == "csv")
    ensures r.Body? ==> HeaderSafe(Disposition(r.body))
    ensures Build(user, q, store, stamp, now).Fail? ==> r == Build(user, q, store, stamp, now)
    ensures Build(user, q, store, stamp, now).Body? ==>
      (r.Body? <==> HeaderSafe(Single(FormCompiler.FormsWithId(store.forms, q.formId.value)).value.title))
    ensures Build(user, q, store, stamp, now).Body? && r.Fail? ==> r == Fail(500, "Failed to export responses")
    ensures user.Some? && Js.Truthy(q.formId) && (Format(q) == "csv" || Format(q) == "json") ==>
      var form := Single(FormCompiler.FormsWithId(store.forms, q.formId.value));
      && (form.None? ==> r == Fail(404, "Form not found"))
      && (form.Some? && form.value.ownerId != user.value ==> r == Fail(403, "Access denied"))
      && (form.Some? && form.value.ownerId == user.value ==>
            if |Selected(store, q.formId.value, q.status)| == 0 then r == Fail(404, "No responses found")
            else if HeaderSafe(form.value.title) then r.Body?
            else r == Fail(500, "Failed to export responses"))
  {
    match Build(user, q, store, stamp, now)
    case Fail(code, message) => Fail(code, message)
    case Body(file) =>
      var title := Single(FormCompiler.FormsWithId(store.forms, q.formId.value)).value.title;
      DispositionSafe(title, now, if Format(q) == "json" then ".json" else ".csv");
      assert Disposition(file) == Disposition(ExportFile("", file.filename, CsvLines([])));
      if HeaderSafe(Disposition(file)) then Body(file) else Fail(500, "Failed to export responses")
  }

  /** A form titled in Arabic (`استبيان`) with one response. */
  function ArabicStore(): Store {
    Store([Form("f", "K", ArabicTitle, true, None, "u")], [],
      [Session(1, "f", "+1", None, InProgress, "whatsapp", 1, None, 0, 0, 0, None, None)], [])
  }

  const ArabicTitle := "\U{627}\U{633}\U{62A}\U{628}\U{64A}\U{627}\U{646}"

  /** Its owner's CSV request passes every check, and the file is named after the title. */
  lemma ArabicBuild(stamp: int -> string)
    ensures Build(Some("u"), ExportQuery(Some("f"), None, None), ArabicStore(), stamp, 0).Body?
    ensures Build(Some("u"), ExportQuery(Some("f"), None, None), ArabicStore(), stamp, 0).body.filename
      == ArabicTitle + "_responses_0.csv"
  {
    var store := ArabicStore();
    var q := ExportQuery(Some("f"), None, None);
    assert Format(q) == "csv" by {
      assert ToLower("csv") == "csv";
    }
    assert FormCompiler.FormsWithId(store.forms, "f") == [store.forms[0]];
    assert store.responses[0] in Selected(store, "f", None);
    assert IntToString(0) == "0";
  }

  /** As written that export is a 500; the fixed handler names the file `_______responses_0.csv`. */
  lemma ArabicTitleFails(stamp: int -> string)
    ensures ExportResponses(Some("u"), ExportQuery(Some("f"), None, None), ArabicStore(), stamp, 0)
      == Fail(500, "Failed to export responses")
    ensures ExportResponsesFixed(Some("u"), ExportQuery(Some("f"), None, None), ArabicStore(), stamp, 0).Body?
    ensures ExportResponsesFixed(Some("u"), ExportQuery(Some("f"), None, None), ArabicStore(), stamp, 0).body.filename
      == "_______" + "_responses_0.csv"
  {
    var store := ArabicStore();
    var q := ExportQuery(Some("f"), None, None);
    ArabicBuild(stamp);
    assert FormCompiler.FormsWithId(store.forms, "f") == [store.forms[0]];
    assert !HeaderChar(ArabicTitle[0]);
    FixedAgreesOnSafeTitles(Some("u"), q, store, stamp, 0);
    ArabicName();
  }

  /** Every letter of the Arabic title becomes `_`. */
  lemma ArabicName()
    ensures HeaderSafeName(ArabicTitle + "_responses_0.csv") == "_______" + "_responses_0.csv"
  {
    var tail := "_responses_0.csv";
    assert HeaderSafe(tail) by {
      forall i | 0 <= i < |tail| ensures HeaderChar(tail[i]) {
        assert tail[i] in "_responses0.cv";
      }
    }
    UnsafeThenSafe(ArabicTitle, tail);
    assert seq(|ArabicTitle|, _ => '_') == "_______";
  }

  /** Renaming replaces a run of unfit characters by as many `_` and keeps a fit tail. */
  lemma UnsafeThenSafe(a: string, b: string)
    requires forall i :: 0 <= i < |a| ==> !HeaderChar(a[i])
    requires HeaderSafe(b)
    ensures HeaderSafeName(a + b) == seq(|a|, _ => '_') + b
  {
    var r := HeaderSafeName(a + b);
    forall i | 0 <= i < |r| ensures r[i] == (seq(|a|, _ => '_') + b)[i] {
      if i < |a| { assert (a + b)[i] == a[i]; } else { assert (a + b)[i] == b[i - |a|]; }
    }
  }

  /** A file name with every character a header cannot carry written as `_`. */
  function HeaderSafeName(s: string): (r: string)
    ensures |r| == |s| && HeaderSafe(r)
    ensures forall i :: 0 <= i < |s| ==> r[i] == (if HeaderChar(s[i]) then s[i] else '_')
  {
    seq(|s|, i requires 0 <= i < |s| => if HeaderChar(s[i]) then s[i] else '_')
  }

  /**
   * The export handler with the file name made fit for the header: every
   * request that passes the checks gets its file, and where the title was
   * already fit it answers exactly as the handler as written.
   */
  function ExportResponsesFixed(user: Option<string>, q: ExportQuery, store: Store, stamp: int -> string, now: int): (r: Response<ExportFile>)
    ensures r.Body? <==> Build(user, q, store, stamp, now).Body?
    ensures r.Fail? ==> r == Build(user, q, store, stamp, now)
    ensures r.Body? ==> HeaderSafe(Disposition(r.body))
    ensures r.Body? ==>
      r.body == Build(user, q, store, stamp, now).body.(filename := HeaderSafeName(Build(user, q, store, stamp, now).body.filename))
  {
    match Build(user, q, store, stamp, now)
    case Fail(code, message) => Fail(code, message)
    case Body(file) =>
      RenamedSafe(file);
      Body(file.(filename := HeaderSafeName(file.filename)))
  }

  /** A file renamed with `HeaderSafeName` has a disposition a header can carry. */
  lemma RenamedSafe(file: ExportFile)
    ensures HeaderSafe(Disposition(file.(filename := HeaderSafeName(file.filename))))
  {
    var name := HeaderSafeName(file.filename);
    HeaderSafeJoin("attachment; filename=\"", name);
    HeaderSafeJoin("attachment; filename=\"" + name, "\"");
  }

  /**
   * The two handlers agree on every request whose form title a header can
   * carry, and only the fixed one exports a form whose title it cannot.
   */
  lemma FixedAgreesOnSafeTitles(user: Option<string>, q: ExportQuery, store: Store, stamp: int -> string, now: int)
    requires Build(user, q, store, stamp, now).Body?
    ensures var title := Single(FormCompiler.FormsWithId(store.forms, q.formId.value)).value.title;
      && (HeaderSafe(title) ==> ExportResponsesFixed(user, q, store, stamp, now) == ExportResponses(user, q, store, stamp, now))
      && (!HeaderSafe(title) ==> ExportResponses(user, q, store, stamp, now) == Fail(500, "Failed to export responses")
                                 && ExportResponsesFixed(user, q, store, stamp, now).Body?)
  {
    var file := Build(user, q, store, stamp, now).body;
    var title := Single(FormCompiler.FormsWithId(store.forms, q.formId.value)).value.title;
    if HeaderSafe(title) {
      assert ExportResponses(user, q, store, stamp, now) == Build(user, q, store, stamp, now);
      assert HeaderSafe(file.filename) by {
        HeaderSafeJoin("attachment; filename=\"", file.filename);
        HeaderSafeJoin("attachment; filename=\"" + file.filename, "\"");
      }
      assert HeaderSafeName(file.filename) == file.filename;
    }
  }

  /** The successful path: every check passed, and the file is built from the form's fields and the selected responses. */
  lemma ExportPath(user: Option<string>, q: ExportQuery, store: Store, stamp: int -> string, now: int)
      returns (form: Form, fields: seq<Field>, responses: seq<Session>)
    requires ExportResponses(user, q, store, stamp, now).Body?
    ensures user.Some? && Js.Truthy(q.formId) && (Format(q) == "csv" || Format(q) == "json")
    ensures Single(FormCompiler.FormsWithId(store.forms, q.formId.value)) == Some(form) && form.ownerId == user.value
    ensures fields == FormFields(store.fields, q.formId.value)
    ensures responses == Selected(store, q.formId.value, q.status) && |responses| > 0
    ensures Format(q) == "csv" ==> ExportResponses(user, q, store, stamp, now).body.body == CsvLines([HeaderLine(fields)] +
      seq(|responses|, k requires 0 <= k < |responses| => RowLine(responses[k], ValuesOf(store.values, responses[k].id), fields, stamp)))
    ensures Format(q) == "json" ==> ExportResponses(user, q, store, stamp, now).body.body == JsonEntries(
      seq(|responses|, k requires 0 <= k < |responses| => Entry(responses[k], ValuesOf(store.values, responses[k].id), fields, stamp)))
  {
    form := Single(FormCompiler.FormsWithId(store.forms, q.formId.value)).value;
    fields := FormFields(store.fields, q.formId.value);
    responses := Selected(store, q.formId.value, q.status);
  }

  /** The file is named after the form's title and the clock, with the format as its extension. */
  lemma ExportFileName(user: Option<string>, q: ExportQuery, store: Store, stamp: int -> string, now: int)
    requires ExportResponses(user, q, store, stamp, now).Body?
    ensures var form := Single(FormCompiler.FormsWithId(store.forms, q.formId.value)).value;
      var name := ExportResponses(user, q, store, stamp, now).body.filename;
      && (Format(q) == "csv" ==> name == form.title + "_responses_" + IntToString(now) + ".csv")
      && (Format(q) == "json" ==> name == form.title + "_responses_" + IntToString(now) + ".json")
  {
    var form, fields, responses := ExportPath(user, q, store, stamp, now);
  }

  /**
   * A CSV export is the header line and then exactly one line per selected
   * response, newest first.
   */
  lemma ExportCsvShape(user: Option<string>, q: ExportQuery, store: Store, stamp: int -> string, now: int)
    requires ExportResponses(user, q, store, stamp, now).Body? && Format(q) == "csv"
    ensures var lines := ExportResponses(user, q, store, stamp, now).body.body.lines;
      var responses := Selected(store, q.formId.value, q.status);
      var fields := FormFields(store.fields, q.formId.value);
      && |lines| == 1 + |responses|
      && lines[0] == HeaderLine(fields)
      && forall k :: 0 <= k < |responses| ==>
           lines[k + 1] == RowLine(responses[k], ValuesOf(store.values, responses[k].id), fields, stamp)
  {
    var form, fields, responses := ExportPath(user, q, store, stamp, now);
  }

  /**
   * A JSON export has one entry per selected response, and in each entry a
   * label carried by one field only maps to that field's answer, or null.
   */
  lemma ExportJsonShape(user: Option<string>, q: ExportQuery, store: Store, stamp: int -> string, now: int)
    requires ExportResponses(user, q, store, stamp, now).Body? && Format(q) == "json"
    ensures var entries := ExportResponses(user, q, store, stamp, now).body.body.entries;
      var responses := Selected(store, q.formId.value, q.status);
      var fields := FormFields(store.fields, q.formId.value);
      && |entries| == |responses|
      && forall k, j :: (0 <= k < |responses| && 0 <= j < |fields| &&
                         forall i :: 0 <= i < |fields| && i != j ==> fields[i].caption != fields[j].caption) ==>
           Lookup(entries[k].answers, fields[j].caption) == Some(JsonValue(ValuesOf(store.values, responses[k].id), fields[j]))
  {
    var form, fields, responses := ExportPath(user, q, store, stamp, now);
    var entries := ExportResponses(user, q, store, stamp, now).body.body.entries;
    assert forall k :: 0 <= k < |entries| ==> entries[k] == Entry(responses[k], ValuesOf(store.values, responses[k].id), fields, stamp);
    EntriesByLabel(entries, responses, store.values, fields);
  }

  /** Entries that each hold their response's answers map every label carried by one field only to that field's answer. */
  lemma EntriesByLabel(entries: seq<JsonEntry>, responses: seq<Session>, values: seq<ValueRow>, fields: seq<Field>)
    requires |entries| == |responses|
    requires forall k :: 0 <= k < |entries| ==> entries[k].answers == JsonAnswers(ValuesOf(values, responses[k].id), fields)
    ensures forall k, j :: (0 <= k < |responses| && 0 <= j < |fields| &&
                         forall i :: 0 <= i < |fields| && i != j ==> fields[i].caption != fields[j].caption) ==>
           Lookup(entries[k].answers, fields[j].caption) == Some(JsonValue(ValuesOf(values, responses[k].id), fields[j]))
  {
    forall k, j | 0 <= k < |responses| && 0 <= j < |fields| && (forall i :: 0 <= i < |fields| && i != j ==> fields[i].caption != fields[j].caption)
      ensures Lookup(entries[k].answers, fields[j].caption) == Some(JsonValue(ValuesOf(values, responses[k].id), fields[j]))
    {
      JsonAnswersByLabel(ValuesOf(values, responses[k].id), fields, fields[j].caption);
    }
  }
}
