/**
 * The WhatsApp-only response composable of
 * `composables/useResponsesWhatsApp.ts`: fetching a form's WhatsApp
 * responses newest first, the status counters and rates over the loaded
 * list, marking a response abandoned, and the CSV/JSON export.  The
 * database is the `table` parameter and a failed query is the `failure`
 * parameter; `stamp` renders a timestamp as the ISO text the database
 * returns.
 */
module WhatsAppResponses {
  import opened Wrappers
  import opened Text
  import opened Records
  import Js
  import Sorting
  import SessionManager
  import ListResponses
  import ResponseStore
  import UseResponses

  datatype State = State(
    responses: seq<Session>,
    current: Option<Session>,
    values: seq<ValueRow>,
    isLoading: bool,
    error: Option<string>)

  // ------------------------------------------------------------ fetching

  datatype Filters = Filters(status: Option<string>, limit: Option<nat>, offset: Option<nat>)

  /** `filters?.limit || 100` */
  function LimitOf(f: Filters): (r: nat)
    ensures r > 0
  {
    if f.limit.Some? && f.limit.value != 0 then f.limit.value else 100
  }

  /** `filters?.offset || 0` */
  function OffsetOf(f: Filters): nat {
    if f.offset.Some? then f.offset.value else 0
  }

  /** The form's WhatsApp rows, narrowed to a status when one is given. */
  function FromWhatsApp(rs: seq<Session>, formId: string, status: Option<string>): (r: seq<Session>)
    ensures forall s :: s in r <==>
      (s in rs && s.formId == formId && s.source == "whatsapp" && (Js.Truthy(status) ==> StatusName(s.status) == status.value))
  {
    if |rs| == 0 then []
    else
      var rest := FromWhatsApp(rs[1..], formId, status);
      assert forall s :: s in rs <==> s == rs[0] || s in rs[1..];
      var s := rs[0];
      if s.formId == formId && s.source == "whatsapp" && (Js.Truthy(status) ==> StatusName(s.status) == status.value)
      then [s] + rest else rest
  }

  /** `.order('created_at', { ascending: false })` */
  function NewestFirst(rows: seq<Session>): (r: seq<Session>)
    ensures forall s :: s in r <==> s in rows
    ensures forall i, j :: 0 <= i < j < |r| ==> r[i].createdAt >= r[j].createdAt
  {
    var sorted := Sorting.SortBy(rows, SessionManager.NegCreatedAt);
    assert forall s :: s in sorted <==> s in rows by {
      forall s ensures s in sorted <==> s in rows {
        Sorting.SortBySameRows(rows, SessionManager.NegCreatedAt, s);
      }
    }
    assert forall i, j :: 0 <= i < j < |sorted| ==> SessionManager.NegCreatedAt(sorted[i]) <= SessionManager.NegCreatedAt(sorted[j]);
    sorted
  }

  /**
   * `getFormResponses` with its page taken as
   * `.range(offset, offset + limit - 1)`: at most `limit || 100` of the
   * form's WhatsApp rows, newest first, after skipping `offset || 0`; the
   * loaded list becomes those rows.  A failed query leaves the list and
   * records its message.
   */
  function GetFormResponses(st: State, table: seq<Session>, formId: string, f: Filters, failure: Option<string>): (r: (State, Result<seq<Session>>))
    ensures failure.Some? ==> r.1 == Err(failure.value) && r.0 == st.(isLoading := false, error := failure)
    ensures failure.None? ==> r.1.Ok? && r.0 == st.(responses := r.1.value, isLoading := false, error := None)
    ensures r.1.Ok? ==> |r.1.value| <= LimitOf(f)
    ensures r.1.Ok? ==> forall s :: s in r.1.value ==>
      (s in table && s.formId == formId && s.source == "whatsapp" && (Js.Truthy(f.status) ==> StatusName(s.status) == f.status.value))
    ensures r.1.Ok? ==> forall i, j :: 0 <= i < j < |r.1.value| ==> r.1.value[i].createdAt >= r.1.value[j].createdAt
    ensures r.1.Ok? ==> r.1.value == ListResponses.Page(NewestFirst(FromWhatsApp(table, formId, f.status)), LimitOf(f), OffsetOf(f))
  {
    if failure.Some? then (st.(isLoading := false, error := failure), Err(failure.value))
    else
      var ordered := NewestFirst(FromWhatsApp(table, formId, f.status));
      var page := ListResponses.Page(ordered, LimitOf(f), OffsetOf(f));
      assert forall s :: s in page ==> s in ordered;
      assert forall i, j :: 0 <= i < j < |page| ==> page[i] == ordered[OffsetOf(f) + i] && page[j] == ordered[OffsetOf(f) + j];
      (st.(responses := page, isLoading := false, error := None), Ok(page))
  }

  /**
   * The message of the TypeError V8 raises for the query chain of
   * `getFormResponses`, whose builder pages with `limit` and `range` and
   * has no `offset`.
   */
  const OffsetMissing := "query.order(...).limit(...).offset is not a function"

  /**
   * `getFormResponses` as written: the chain throws before any query is
   * sent, whatever the table holds, so the loaded list is kept and the
   * TypeError's message is recorded.
   */
  function GetFormResponsesAsWritten(st: State, formId: string, f: Filters): (r: (State, Result<seq<Session>>))
    ensures r.1.Err? && r.0.error == Some(r.1.error)
    ensures r.0.responses == st.responses && !r.0.isLoading
  {
    (st.(isLoading := false, error := Some(OffsetMissing)), Err(OffsetMissing))
  }

  /**
   * The ranged fetch loads the page of the form's WhatsApp rows, newest
   * first; the fetch as written loads nothing and reports the missing
   * method instead.
   */
  lemma OffsetNeverLoads(st: State, table: seq<Session>, formId: string, f: Filters)
    ensures GetFormResponses(st, table, formId, f, None).1.Ok?
    ensures GetFormResponsesAsWritten(st, formId, f) == (st.(isLoading := false, error := Some(OffsetMissing)), Err(OffsetMissing))
    ensures var rows := NewestFirst(FromWhatsApp(table, formId, f.status));
      && GetFormResponses(st, table, formId, f, None).0.responses == ListResponses.Page(rows, LimitOf(f), OffsetOf(f))
      && (forall k :: 0 <= k < |GetFormResponses(st, table, formId, f, None).0.responses| ==>
            GetFormResponses(st, table, formId, f, None).0.responses[k] == rows[OffsetOf(f) + k])
  {
  }

  // ------------------------------------------------------------ statistics

  datatype Stats = Stats(total: nat, completed: nat, inProgress: nat, abandoned: nat, completionRate: int, averageSeconds: int)

  /** The counters and rates the composable derives from the loaded list. */
  function StatsOf(rs: seq<Session>): Stats {
    Stats(
      |rs|,
      CountStatus(rs, Completed),
      CountStatus(rs, InProgress),
      CountStatus(rs, Abandoned),
      ResponseStore.CompletionRate(rs),
      ResponseStore.AverageTime(rs))
  }

  /**
   * `getStats`: the statistics of the newest hundred WhatsApp responses of
   * the form, or 'Failed to fetch responses' when the query fails.
   */
  function GetStats(st: State, table: seq<Session>, formId: string, failure: Option<string>): (r: (State, Result<Stats>))
    ensures failure.Some? ==> r.1 == Err("Failed to fetch responses") && r.0.error == Some("Failed to fetch responses")
    ensures failure.None? ==> r.1.Ok? && r.1.value == StatsOf(r.0.responses)
  {
    var (st', fetched) := GetFormResponses(st, table, formId, Filters(None, None, None), failure);
    if fetched.Err? then (st'.(error := Some("Failed to fetch responses")), Err("Failed to fetch responses"))
    else (st', Ok(StatsOf(st'.responses)))
  }

  /**
   * The statistics describe at most a hundred responses; the three status
   * counters add up to the total; the rate is a percentage, 0 for none;
   * and every counted response is one of the form's WhatsApp responses.
   */
  lemma StatsConsistent(st: State, table: seq<Session>, formId: string)
    ensures var (st', r) := GetStats(st, table, formId, None);
      && r.Ok?
      && r.value.completed + r.value.inProgress + r.value.abandoned == r.value.total <= 100
      && 0 <= r.value.completionRate <= 100
      && (r.value.total == 0 ==> r.value.completionRate == 0 && r.value.averageSeconds == 0)
      && (forall s :: s in st'.responses ==> s in table && s.formId == formId && s.source == "whatsapp")
  {
    var (st', r) := GetStats(st, table, formId, None);
    StatusCountsSum(st'.responses);
    assert ResponseStore.TimedCount(st'.responses) <= |st'.responses|;
  }

  // ------------------------------------------------------------ markAbandoned

  /** The row the update writes back: abandoned, stamped with the clock. */
  function Abandon(row: Session, now: int): (r: Session)
    ensures r.status == Abandoned && r.updatedAt == now
    ensures r.id == row.id && r.formId == row.formId && r.phone == row.phone && r.createdAt == row.createdAt
    ensures r.completedAt == row.completedAt && r.completionTime == row.completionTime
  {
    row.(status := Abandoned, updatedAt := now)
  }

  /**
   * `markAbandoned`: the update is read back with `.single()`, so it fails
   * unless exactly one row has the id; on success the row is stored and
   * the first listed entry with the id is replaced in place.
   */
  function MarkAbandoned(st: State, table: seq<Session>, responseId: nat, now: int): (r: (State, seq<Session>, Result<Session>))
    ensures |r.1| == |table| && |r.0.responses| == |st.responses|
    ensures r.2.Err? <==> |UseResponses.SessionsWithId(table, responseId)| != 1
    ensures r.2.Err? ==> r.1 == table && r.0.responses == st.responses && r.0.error == Some(NotSingleError)
    ensures r.2.Ok? ==> r.2.value == Abandon(UseResponses.SessionsWithId(table, responseId)[0], now)
    ensures r.2.Ok? ==> forall k :: 0 <= k < |table| ==> r.1[k] == (if table[k].id == responseId then r.2.value else table[k])
    ensures r.2.Ok? ==> forall k :: 0 <= k < |st.responses| ==>
      r.0.responses[k] == (if UseResponses.FirstWithId(st.responses, k, responseId) then r.2.value else st.responses[k])
  {
    var matched := UseResponses.SessionsWithId(table, responseId);
    if |matched| != 1 then (st.(isLoading := false, error := Some(NotSingleError)), table, Err(NotSingleError))
    else
      var data := Abandon(matched[0], now);
      assert matched[0] in matched;
      var rows := seq(|table|, k requires 0 <= k < |table| => if table[k].id == responseId then data else table[k]);
      (st.(responses := UseResponses.ReplaceListed(st.responses, data), isLoading := false, error := None), rows, Ok(data))
  }

  /** Replacing one entry moves it from its old status's counter to its new one. */
  lemma {:induction false} CountAfterReplace(rs: seq<Session>, k: nat, x: Session, status: Status)
    requires k < |rs|
    ensures CountStatus(rs[k := x], status) + (if rs[k].status == status then 1 else 0)
      == CountStatus(rs, status) + (if x.status == status then 1 else 0)
  {
    if k > 0 {
      CountAfterReplace(rs[1..], k - 1, x, status);
      assert rs[k := x][1..] == rs[1..][k - 1 := x];
    }
  }

  /**
   * Marking a response abandoned never lowers the loaded list's abandoned
   * counter and never raises the other two; when the entry was in progress
   * one response moves from in progress to abandoned.
   */
  lemma MarkAbandonedCounts(st: State, table: seq<Session>, responseId: nat, now: int)
    requires MarkAbandoned(st, table, responseId, now).2.Ok?
    ensures var after := MarkAbandoned(st, table, responseId, now).0.responses;
      && CountStatus(after, Abandoned) >= CountStatus(st.responses, Abandoned)
      && CountStatus(after, InProgress) <= CountStatus(st.responses, InProgress)
      && CountStatus(after, Completed) <= CountStatus(st.responses, Completed)
      && |after| == |st.responses|
    ensures var after := MarkAbandoned(st, table, responseId, now).0.responses;
      forall k :: UseResponses.FirstWithId(st.responses, k, responseId) && st.responses[k].status == InProgress ==>
        CountStatus(after, Abandoned) == CountStatus(st.responses, Abandoned) + 1
        && CountStatus(after, InProgress) + 1 == CountStatus(st.responses, InProgress)
  {
    var (st', _, r) := MarkAbandoned(st, table, responseId, now);
    var data := r.value;
    match UseResponses.IndexOfSession(st.responses, responseId)
    case None =>
      assert st'.responses == st.responses;
    case Some(k) =>
      assert st'.responses == st.responses[k := data];
      CountAfterReplace(st.responses, k, data, Abandoned);
      CountAfterReplace(st.responses, k, data, InProgress);
      CountAfterReplace(st.responses, k, data, Completed);
  }

  // ------------------------------------------------------------ export

  const CsvHeader := "Phone," + "Name," + "Status," + "Completion Time," + "Started," + "Completed"

  /** `Math.round(s / 60) + 'm'` for a truthy time, `-` otherwise. */
  function MinutesCell(t: Option<int>): (r: string)
    ensures !(t.Some? && t.value != 0) ==> r == "-"
    ensures t.Some? && t.value != 0 ==>
      exists m :: r == IntToString(m) + "m" && 120 * m <= 2 * t.value + 60 < 120 * (m + 1)
    ensures '\n' !in r
  {
    if t.Some? && t.value != 0 then
      var m := Js.RoundRatio(t.value, 60);
      assert '\n' !in IntToString(m) by { assert AllDigits(NatToString(if m < 0 then -m else m)); }
      IntToString(m) + "m"
    else "-"
  }

  /** One CSV line: phone, quoted name, status, minutes, quoted start and quoted completion stamps. */
  function CsvLine(s: Session, stamp: int -> string): string {
    s.phone + ",\"" + Js.OrElse(s.name, "") + "\"," + StatusName(s.status) + "," + MinutesCell(s.completionTime)
    + ",\"" + stamp(s.createdAt) + "\",\"" + (if s.completedAt.Some? then stamp(s.completedAt.value) else "") + "\""
  }

  /** The lines joined, each ended by a line feed. */
  function LinesText(lines: seq<string>): string {
    if |lines| == 0 then "" else lines[0] + "\n" + LinesText(lines[1..])
  }

  function CsvText(rs: seq<Session>, stamp: int -> string): string {
    CsvHeader + "\n" + LinesText(CsvLines(rs, stamp))
  }

  /** No column a line is made of holds a line feed. */
  predicate Unbroken(s: Session, stamp: int -> string) {
    && '\n' !in s.phone && '\n' !in Js.OrElse(s.name, "") && '\n' !in stamp(s.createdAt)
    && (s.completedAt.Some? ==> '\n' !in stamp(s.completedAt.value))
  }

  /** The CSV lines of the responses, in order. */
  function CsvLines(rs: seq<Session>, stamp: int -> string): (r: seq<string>)
    ensures |r| == |rs|
    ensures forall k :: 0 <= k < |rs| ==> r[k] == CsvLine(rs[k], stamp)
  {
    if |rs| == 0 then [] else [CsvLine(rs[0], stamp)] + CsvLines(rs[1..], stamp)
  }

  /** The position of the first line feed. */
  function FirstBreak(s: string): (i: nat)
    requires '\n' in s
    ensures i < |s| && s[i] == '\n' && '\n' !in s[..i]
  {
    if s[0] == '\n' then 0
    else
      assert '\n' in s[1..] by { var k :| 0 <= k < |s| && s[k] == '\n'; assert s[1..][k - 1] == '\n'; }
      var i := FirstBreak(s[1..]) + 1;
      assert s[..i] == [s[0]] + s[1..][..i - 1];
      i
  }

  /** `text.split('\n')` */
  function SplitLines(s: string): (r: seq<string>)
    ensures |r| > 0
    decreases |s|
  {
    if '\n' !in s then [s]
    else
      var i := FirstBreak(s);
      [s[..i]] + SplitLines(s[i + 1..])
  }

  lemma SplitLinesCons(a: string, b: string)
    requires '\n' !in a
    ensures SplitLines(a + "\n" + b) == [a] + SplitLines(b)
  {
    var s := a + "\n" + b;
    assert s[|a|] == '\n';
    var i := FirstBreak(s);
    assert s[..i] == a && s[i + 1..] == b;
  }

  /** A line built from unbroken columns holds no line feed. */
  lemma CsvLineUnbroken(s: Session, stamp: int -> string)
    requires Unbroken(s, stamp)
    ensures '\n' !in CsvLine(s, stamp)
  {
    assert '\n' !in StatusName(s.status) by {
      match s.status
      case InProgress =>
      case Completed =>
      case Abandoned =>
    }
    assert '\n' !in MinutesCell(s.completionTime);
  }

  /** Lines without line feeds, each ended by one, split back into those lines and the empty rest. */
  lemma {:induction false} LinesSplit(lines: seq<string>)
    requires forall k :: 0 <= k < |lines| ==> '\n' !in lines[k]
    ensures SplitLines(LinesText(lines)) == lines + [""]
  {
    if |lines| == 0 {
      assert '\n' !in LinesText(lines);
    } else {
      LinesSplit(lines[1..]);
      SplitLinesCons(lines[0], LinesText(lines[1..]));
    }
  }

  datatype Data = JsonRows(rows: seq<Session>) | CsvData(text: string)

  datatype Download = Download(data: Data, filename: string)

  /**
   * `exportResponses`: the newest hundred WhatsApp responses as JSON when
   * the format is `json`, as CSV otherwise; the file is named after the
   * form and the clock.
   */
  function ExportResponses(st: State, table: seq<Session>, formId: string, format: string, now: int, stamp: int -> string, failure: Option<string>): (r: (State, Result<Download>))
    ensures failure.Some? ==> r.1 == Err("Failed to fetch responses") && r.0.error == Some("Failed to fetch responses")
    ensures failure.None? ==> r.1.Ok?
    ensures r.1.Ok? && format == "json" ==>
      r.1.value == Download(JsonRows(r.0.responses), "responses_" + formId + "_" + IntToString(now) + ".json")
    ensures r.1.Ok? && format != "json" ==>
      r.1.value == Download(CsvData(CsvText(r.0.responses, stamp)), "responses_" + formId + "_" + IntToString(now) + ".csv")
  {
    var (st', fetched) := GetFormResponses(st, table, formId, Filters(None, None, None), failure);
    if fetched.Err? then (st'.(error := Some("Failed to fetch responses")), Err("Failed to fetch responses"))
    else
      var rows := fetched.value;
      if format == "json" then (st', Ok(Download(JsonRows(rows), "responses_" + formId + "_" + IntToString(now) + ".json")))
      else (st', Ok(Download(CsvData(CsvText(rows, stamp)), "responses_" + formId + "_" + IntToString(now) + ".csv")))
  }

  /**
   * A CSV export splits into the header, then exactly one line per
   * exported response in newest-first order, then the empty text after the
   * final line feed — provided no column holds a line feed of its own.
   */
  lemma CsvTextSplits(rows: seq<Session>, stamp: int -> string)
    requires forall s :: s in rows ==> Unbroken(s, stamp)
    ensures SplitLines(CsvText(rows, stamp)) == [CsvHeader] + CsvLines(rows, stamp) + [""]
  {
    var lines := CsvLines(rows, stamp);
    forall k | 0 <= k < |lines|
      ensures '\n' !in lines[k]
    {
      assert rows[k] in rows;
      CsvLineUnbroken(rows[k], stamp);
    }
    LinesSplit(lines);
    HeaderUnbroken();
    SplitLinesCons(CsvHeader, LinesText(lines));
  }

  /** The header is a single line. */
  lemma HeaderUnbroken()
    ensures '\n' !in CsvHeader
  {
  }

  lemma ExportCsvLines(st: State, table: seq<Session>, formId: string, now: int, stamp: int -> string)
    requires forall s :: s in table ==> Unbroken(s, stamp)
    ensures var (st', r) := ExportResponses(st, table, formId, "csv", now, stamp, None);
      var rows := st'.responses;
      && r.Ok? && r.value.data == CsvData(CsvText(rows, stamp))
      && |rows| <= 100
      && SplitLines(r.value.data.text) == [CsvHeader] + CsvLines(rows, stamp) + [""]
  {
    var (st', r) := ExportResponses(st, table, formId, "csv", now, stamp, None);
    CsvTextSplits(st'.responses, stamp);
  }
}
