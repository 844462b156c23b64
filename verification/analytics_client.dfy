/**
 * The dashboard's analytics composable of `composables/useFormAnalytics.ts`:
 * it keeps the last report of the analytics endpoint, derives a per-source
 * breakdown and per-field response rates from it, and names downloaded
 * exports after the endpoint's `Content-Disposition` header.  The HTTP
 * round trips are the endpoints' results passed in as values; the browser
 * download itself is left out.
 */
module AnalyticsClient {
  import opened Wrappers
  import opened Text
  import opened Records
  import Js
  import opened Http
  import Analytics
  import Export

  datatype State = State(
    analytics: Option<Analytics.Summary>,
    fieldStats: seq<Analytics.FieldStat>,
    bySource: seq<(string, nat)>,
    isLoading: bool,
    error: Option<string>)

  function Initial(): State {
    State(None, [], [], false, None)
  }

  // ------------------------------------------------------------ loading

  /**
   * `getFormAnalytics` with `$fetch` the callable fetch helper: a report
   * replaces the summary, the field statistics and the source buckets; a
   * refused request keeps them and records `failure`, the text of the
   * error the fetch raised.
   */
  function Load(st: State, response: Response<Analytics.Report>, failure: string): (r: State)
    ensures response.Body? ==> r == State(Some(response.body.summary), response.body.fieldStats, response.body.bySource, false, None)
    ensures response.Fail? ==> r == st.(isLoading := false, error := Some(failure))
  {
    match response
    case Body(report) => State(Some(report.summary), report.fieldStats, report.bySource, false, None)
    case Fail(_, _) => st.(isLoading := false, error := Some(failure))
  }

  /**
   * `getFormAnalytics` as written: `$fetch` is whatever `useFetch()` gave
   * back when called without a request, which cannot be called, so every
   * call throws before a request is sent; `thrown` is that error's
   * message.  The report, the field statistics and the buckets are kept.
   */
  function LoadAsWritten(st: State, thrown: string): (r: State)
    ensures r.analytics == st.analytics && r.fieldStats == st.fieldStats && r.bySource == st.bySource
    ensures r.error == Some(thrown) && !r.isLoading
  {
    st.(isLoading := false, error := Some(thrown))
  }

  /**
   * Whatever report the endpoint would give, the dashboard as written
   * stays at zero responses and an all-zero breakdown, while loading that
   * report shows its summary.
   */
  lemma AnalyticsNeverLoad(report: Analytics.Report, thrown: string, failure: string)
    ensures TotalResponses(LoadAsWritten(Initial(), thrown)) == 0
    ensures SourceBreakdown(LoadAsWritten(Initial(), thrown)) == Breakdown(Share(0, 0), Share(0, 0), Share(0, 0))
    ensures TotalResponses(Load(Initial(), Body(report), failure)) == report.summary.totalResponses
    ensures Load(Initial(), Body(report), failure).fieldStats == report.fieldStats
  {
  }

  /** `analytics?.total_responses || 0` */
  function TotalResponses(st: State): (r: nat)
    ensures st.analytics.None? ==> r == 0
    ensures st.analytics.Some? ==> r == st.analytics.value.totalResponses
  {
    if st.analytics.Some? then st.analytics.value.totalResponses else 0
  }

  /** `analytics?.completion_rate || 0` */
  function CompletionRate(st: State): (r: int)
    ensures st.analytics.None? ==> r == 0
    ensures st.analytics.Some? ==> r == st.analytics.value.completionRate
  {
    if st.analytics.Some? then st.analytics.value.completionRate else 0
  }

  // ------------------------------------------------------------ source breakdown

  datatype Share = Share(count: nat, percentage: int)

  datatype Breakdown = Breakdown(whatsapp: Share, web: Share, api: Share)

  /** A source's share of the total: its bucket (0 when absent) and the rounded percentage. */
  function ShareOf(buckets: seq<(string, nat)>, source: string, total: nat): (r: Share)
    requires total > 0
    ensures r.count == Analytics.Lookup(buckets, source).GetOr(0)
    ensures 2 * total * r.percentage <= 200 * r.count + total < 2 * total * (r.percentage + 1)
  {
    var n := Analytics.Lookup(buckets, source).GetOr(0);
    Share(n, Js.Percent(n, total))
  }

  /** `getSourceBreakdown`: all zeros without responses, otherwise each source's share. */
  function SourceBreakdown(st: State): (r: Breakdown)
    ensures TotalResponses(st) == 0 ==> r == Breakdown(Share(0, 0), Share(0, 0), Share(0, 0))
    ensures TotalResponses(st) > 0 ==>
      r == Breakdown(
        ShareOf(st.bySource, "whatsapp", TotalResponses(st)),
        ShareOf(st.bySource, "web", TotalResponses(st)),
        ShareOf(st.bySource, "api", TotalResponses(st)))
  {
    var total := TotalResponses(st);
    if total == 0 then Breakdown(Share(0, 0), Share(0, 0), Share(0, 0))
    else Breakdown(ShareOf(st.bySource, "whatsapp", total), ShareOf(st.bySource, "web", total), ShareOf(st.bySource, "api", total))
  }

  /** A share is a percentage between 0 and 100 when its count is within the total. */
  predicate WithinTotal(s: Share, total: nat) {
    s.count <= total && 0 <= s.percentage <= 100
  }

  /**
   * After loading a report of the analytics endpoint, each source's count is
   * the number of covered responses from that source, and each percentage
   * lies between 0 and 100.
   */
  lemma BreakdownOfReport(st: State, user: Option<string>, q: Analytics.AnalyticsQuery, store: Store, now: int, day: int -> string, failure: string)
    requires Analytics.FormAnalytics(user, q, store, now, day).Body?
    ensures var loaded := Load(st, Analytics.FormAnalytics(user, q, store, now, day), failure);
      var rs := Analytics.Covered(q, store, now);
      var b := SourceBreakdown(loaded);
      && TotalResponses(loaded) == |rs|
      && b.whatsapp.count == CountSource(rs, "whatsapp")
      && b.web.count == CountSource(rs, "web")
      && b.api.count == CountSource(rs, "api")
      && WithinTotal(b.whatsapp, |rs|) && WithinTotal(b.web, |rs|) && WithinTotal(b.api, |rs|)
  {
    var rs := Analytics.Covered(q, store, now);
    Analytics.SourceBuckets(rs, "whatsapp");
    Analytics.SourceBuckets(rs, "web");
    Analytics.SourceBuckets(rs, "api");
    Js.PercentBounds(CountSource(rs, "whatsapp"), |rs|);
    Js.PercentBounds(CountSource(rs, "web"), |rs|);
    Js.PercentBounds(CountSource(rs, "api"), |rs|);
  }

  // ------------------------------------------------------------ field response rate

  /** `getFieldResponseRate` */
  function FieldResponseRate(st: State, fieldId: string): int {
    RateIn(st.fieldStats, fieldId)
  }

  /** `stats.find(f => f.field_id === fieldId)?.response_rate || 0`: the first match's rate, 0 without one. */
  function RateIn(stats: seq<Analytics.FieldStat>, fieldId: string): (r: int)
    ensures (forall k :: 0 <= k < |stats| ==> stats[k].fieldId != fieldId) ==> r == 0
    ensures forall k :: (0 <= k < |stats| && stats[k].fieldId == fieldId
      && (forall j :: 0 <= j < k ==> stats[j].fieldId != fieldId)) ==> r == stats[k].rate
  {
    if |stats| == 0 then 0
    else if stats[0].fieldId == fieldId then stats[0].rate
    else
      var r := RateIn(stats[1..], fieldId);
      assert forall k :: 1 <= k < |stats| ==> stats[k] == stats[1..][k - 1];
      r
  }

  /** A field id no field has reads 0 from the statistics of those fields. */
  lemma UnknownFieldReadsZero(fields: seq<Field>, values: seq<ValueRow>, completed: nat, fieldId: string)
    requires forall f :: f in fields ==> f.id != fieldId
    ensures RateIn(Analytics.FieldStats(fields, values, completed), fieldId) == 0
  {
    var stats := Analytics.FieldStats(fields, values, completed);
    forall k | 0 <= k < |stats|
      ensures stats[k].fieldId != fieldId
    {
      assert fields[k] in fields;
    }
  }

  /** A field's id reads the rounded share of its answers in the completed responses. */
  lemma KnownFieldReadsRate(fields: seq<Field>, values: seq<ValueRow>, completed: nat, i: nat)
    requires completed > 0 && i < |fields|
    ensures RateIn(Analytics.FieldStats(fields, values, completed), fields[i].id)
      == Js.Percent(Analytics.AnswersTo(values, fields[i].id), completed)
  {
    var stats := Analytics.FieldStats(fields, values, completed);
    assert stats[i].fieldId == fields[i].id;
    var k := FirstStat(stats, fields[i].id, i);
    assert RateIn(stats, fields[i].id) == stats[k].rate;
    assert stats[k].fieldId == fields[k].id == fields[i].id;
  }

  /** The first statistic for a field that has one at position `i`. */
  lemma FirstStat(stats: seq<Analytics.FieldStat>, fieldId: string, i: nat) returns (k: nat)
    requires i < |stats| && stats[i].fieldId == fieldId
    ensures k <= i && stats[k].fieldId == fieldId && forall j :: 0 <= j < k ==> stats[j].fieldId != fieldId
  {
    k := 0;
    while stats[k].fieldId != fieldId
      invariant k <= i
      invariant forall j :: 0 <= j < k ==> stats[j].fieldId != fieldId
      decreases i - k
    {
      k := k + 1;
    }
  }

  /** A report's field statistics are those of the form's fields over every stored answer. */
  lemma ReportFieldStats(user: Option<string>, q: Analytics.AnalyticsQuery, store: Store, now: int, day: int -> string)
    requires Analytics.FormAnalytics(user, q, store, now, day).Body?
    ensures var report := Analytics.FormAnalytics(user, q, store, now, day).body;
      report.fieldStats == Analytics.FieldStats(FormFields(store.fields, q.formId.value), store.values, report.summary.completed)
  {
  }

  /**
   * After loading a report in which something was completed, every field
   * of the form reads its answer count as a rounded percentage of the
   * completed responses; a field id the form does not have reads 0.
   */
  lemma FieldRatesOfReport(st: State, user: Option<string>, q: Analytics.AnalyticsQuery, store: Store, now: int, day: int -> string, failure: string, fieldId: string)
    requires Analytics.FormAnalytics(user, q, store, now, day).Body?
    ensures var report := Analytics.FormAnalytics(user, q, store, now, day).body;
      var loaded := Load(st, Analytics.FormAnalytics(user, q, store, now, day), failure);
      var fields := FormFields(store.fields, q.formId.value);
      && ((forall f :: f in fields ==> f.id != fieldId) ==> FieldResponseRate(loaded, fieldId) == 0)
      && (report.summary.completed > 0 && (exists f :: f in fields && f.id == fieldId) ==>
            FieldResponseRate(loaded, fieldId) == Js.Percent(Analytics.AnswersTo(store.values, fieldId), report.summary.completed))
  {
    ReportFieldStats(user, q, store, now, day);
    LoadedRates(st, Analytics.FormAnalytics(user, q, store, now, day), failure, FormFields(store.fields, q.formId.value), store.values, fieldId);
  }

  /** Loading a report whose statistics cover `fields` over `values`: the rates a field id then reads. */
  lemma LoadedRates(st: State, response: Response<Analytics.Report>, failure: string, fields: seq<Field>, values: seq<ValueRow>, fieldId: string)
    requires response.Body? && response.body.fieldStats == Analytics.FieldStats(fields, values, response.body.summary.completed)
    ensures var loaded := Load(st, response, failure);
      var completed := response.body.summary.completed;
      && ((forall f :: f in fields ==> f.id != fieldId) ==> FieldResponseRate(loaded, fieldId) == 0)
      && (completed > 0 && (exists f :: f in fields && f.id == fieldId) ==>
            FieldResponseRate(loaded, fieldId) == Js.Percent(Analytics.AnswersTo(values, fieldId), completed))
  {
    var completed := response.body.summary.completed;
    if forall f :: f in fields ==> f.id != fieldId {
      UnknownFieldReadsZero(fields, values, completed, fieldId);
    }
    if completed > 0 && exists f :: f in fields && f.id == fieldId {
      var f :| f in fields && f.id == fieldId;
      var i :| 0 <= i < |fields| && fields[i] == f;
      KnownFieldReadsRate(fields, values, completed, i);
    }
  }

  // ------------------------------------------------------------ export download

  const Marker := "filename=\""

  /** The first position at or after `from` where `sub` occurs. */
  function IndexOf(s: string, sub: string, from: nat): (r: Option<nat>)
    ensures r.Some? ==> from <= r.value && OccursAt(s, sub, r.value)
    ensures r.Some? ==> forall i :: from <= i < r.value ==> !OccursAt(s, sub, i)
    ensures r.None? ==> forall i :: from <= i ==> !OccursAt(s, sub, i)
    decreases |s| - from
  {
    if from + |sub| > |s| then None
    else if OccursAt(s, sub, from) then Some(from)
    else IndexOf(s, sub, from + 1)
  }

  /** The last position holding `c`. */
  function LastIndexOf(s: string, c: char): (r: Option<nat>)
    ensures r.Some? ==> r.value < |s| && s[r.value] == c && forall k :: r.value < k < |s| ==> s[k] != c
    ensures r.None? ==> forall k :: 0 <= k < |s| ==> s[k] != c
  {
    if |s| == 0 then None
    else if s[|s| - 1] == c then Some(|s| - 1)
    else LastIndexOf(s[..|s| - 1], c)
  }

  /**
   * `header.match(/filename="(.+)"/)[1]`: the text from the first
   * `filename="` to the last quote, which must leave at least one
   * character.  Header values hold no line breaks, so `.` matches every
   * character and a later `filename="` can only match where the first does.
   */
  function FilenameIn(header: string): (r: Option<string>)
    ensures r.Some? ==> |r.value| > 0
  {
    match IndexOf(header, Marker, 0)
    case None => None
    case Some(i) =>
      match LastIndexOf(header, '"')
      case None => None
      case Some(j) => if i + |Marker| < j then Some(header[i + |Marker|..j]) else None
  }

  /** The downloaded file's name: from the header when it names one, `responses.<format>` otherwise. */
  function DownloadName(header: Option<string>, format: string): (r: string)
    ensures header.None? ==> r == "responses." + format
    ensures header.Some? && FilenameIn(header.value).None? ==> r == "responses." + format
    ensures header.Some? && FilenameIn(header.value).Some? ==> r == FilenameIn(header.value).value
  {
    if header.Some? && FilenameIn(header.value).Some? then FilenameIn(header.value).value else "responses." + format
  }

  /** A header `prefix + filename="name"` names `name`, when the prefix holds no `f`. */
  lemma FilenameAfter(prefix: string, name: string)
    requires 'f' !in prefix && |name| > 0
    ensures FilenameIn(prefix + Marker + name + "\"") == Some(name)
  {
    var h := prefix + Marker + name + "\"";
    assert OccursAt(h, Marker, |prefix|) by {
      assert h[|prefix|..|prefix| + |Marker|] == Marker;
    }
    forall i | 0 <= i < |prefix|
      ensures !OccursAt(h, Marker, i)
    {
      assert h[i] == prefix[i] && h[i] != Marker[0];
    }
    var found := IndexOf(h, Marker, 0);
    assert found == Some(|prefix|);
    assert LastIndexOf(h, '"') == Some(|h| - 1);
    assert h[|prefix| + |Marker|..|h| - 1] == name;
  }

  /** The client's export query: `form_id`, `format`, and `status` only when truthy. */
  function ExportQueryOf(formId: string, format: string, status: Option<string>): (r: Export.ExportQuery)
    ensures r.formId == Some(formId) && r.format == Some(format)
    ensures Js.Truthy(status) ==> r.status == status
    ensures !Js.Truthy(status) ==> r.status.None?
  {
    Export.ExportQuery(Some(formId), Some(format), if Js.Truthy(status) then status else None)
  }

  /**
   * `exportResponses`: a refused export fails with 'Export failed'; a
   * delivered one is saved under the name its `Content-Disposition` gives.
   */
  function ExportDownload(st: State, format: string, response: Response<Export.ExportFile>): (r: (State, Result<string>))
    ensures response.Fail? ==> r == (st.(error := Some("Export failed")), Err("Export failed"))
    ensures response.Body? ==> r.0 == st && r.1 == Ok(DownloadName(Some(Export.Disposition(response.body)), format))
  {
    match response
    case Fail(_, _) => (st.(error := Some("Export failed")), Err("Export failed"))
    case Body(file) => (st, Ok(DownloadName(Some(Export.Disposition(file)), format)))
  }

  /** The header of a file with a name names that file. */
  lemma DispositionNamesFile(file: Export.ExportFile, format: string)
    requires |file.filename| > 0
    ensures DownloadName(Some(Export.Disposition(file)), format) == file.filename
  {
    assert 'f' !in "attachment; ";
    FilenameAfter("attachment; ", file.filename);
    assert Export.Disposition(file) == "attachment; " + Marker + file.filename + "\"";
  }

  /**
   * A delivered export is saved under exactly the file name the endpoint
   * chose: the form's title, `_responses_`, the clock, and the format.
   */
  lemma DownloadKeepsServerName(st: State, user: Option<string>, formId: string, format: string, status: Option<string>,
                                store: Store, stamp: int -> string, now: int)
    requires Export.ExportResponses(user, ExportQueryOf(formId, format, status), store, stamp, now).Body?
    ensures var file := Export.ExportResponses(user, ExportQueryOf(formId, format, status), store, stamp, now).body;
      ExportDownload(st, format, Body(file)).1 == Ok(file.filename)
  {
    var q := ExportQueryOf(formId, format, status);
    var file := Export.ExportResponses(user, q, store, stamp, now).body;
    Export.ExportFileName(user, q, store, stamp, now);
    DispositionNamesFile(file, format);
  }
}
