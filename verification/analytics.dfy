/**
 * The per-form analytics endpoint of `server/api/analytics/form.get.ts`:
 * the reporting window, status counts, average completion time, source
 * buckets, completion rate, per-field answer counts and daily totals.
 * The clock is the `now` parameter and the calendar day of a timestamp
 * (`toISOString().split('T')[0]`) is the `day` parameter.
 */
module Analytics {
  import opened Wrappers
  import Js
  import opened Records
  import Sorting
  import SessionManager
  import FormCompiler
  import opened Http

  const HourMs: int := 60 * 60 * 1000
  const DayMs: int := 24 * HourMs

  /** The length of the reporting window: one day, thirty days, or seven days for anything else. */
  function WindowMs(period: string): (r: int)
    ensures period == "24h" ==> r == 86_400_000
    ensures period == "30d" ==> r == 2_592_000_000
    ensures period != "24h" && period != "30d" ==> r == 604_800_000
  {
    if period == "24h" then DayMs else if period == "30d" then 30 * DayMs else 7 * DayMs
  }

  /** The form's responses created at or after `start`, newest first. */
  function InWindow(rows: seq<Session>, formId: string, start: int): (r: seq<Session>)
    ensures forall s :: s in r <==> s in rows && s.formId == formId && s.createdAt >= start
    ensures forall i, j :: 0 <= i < j < |r| ==> r[i].createdAt >= r[j].createdAt
  {
    var picked := Since(rows, formId, start);
    var sorted := Sorting.SortBy(picked, SessionManager.NegCreatedAt);
    assert forall s :: s in sorted <==> s in picked by {
      forall s ensures s in sorted <==> s in picked {
        Sorting.SortBySameRows(picked, SessionManager.NegCreatedAt, s);
      }
    }
    assert forall i, j :: 0 <= i < j < |sorted| ==> SessionManager.NegCreatedAt(sorted[i]) <= SessionManager.NegCreatedAt(sorted[j]);
    sorted
  }

  function Since(rows: seq<Session>, formId: string, start: int): (r: seq<Session>)
    ensures forall s :: s in r <==> s in rows && s.formId == formId && s.createdAt >= start
  {
    if |rows| == 0 then []
    else
      var rest := Since(rows[1..], formId, start);
      assert forall s :: s in rows <==> s == rows[0] || s in rows[1..];
      if rows[0].formId == formId && rows[0].createdAt >= start then [rows[0]] + rest else rest
  }

  // ------------------------------------------------------------ average completion time

  /** A completed response with a truthy completion time. */
  predicate Timed(s: Session) {
    s.status == Completed && s.completionTime.Some? && s.completionTime.value != 0
  }

  function TimedCount(rs: seq<Session>): (r: nat)
    ensures r <= |rs|
  {
    if |rs| == 0 then 0 else (if Timed(rs[0]) then 1 else 0) + TimedCount(rs[1..])
  }

  function TimedTotal(rs: seq<Session>): int {
    if |rs| == 0 then 0 else (if Timed(rs[0]) then rs[0].completionTime.value else 0) + TimedTotal(rs[1..])
  }

  /** The rounded mean completion time of the timed completions, or 0 when there are none. */
  function AverageTime(rs: seq<Session>): (r: int)
    ensures TimedCount(rs) == 0 ==> r == 0
  {
    var n := TimedCount(rs);
    if n == 0 then 0 else Js.RoundRatio(TimedTotal(rs), n)
  }

  /** The timed total lies between the count times the least and the greatest time. */
  lemma {:induction false} TimedTotalBounds(rs: seq<Session>, lo: int, hi: int)
    requires forall s :: s in rs && Timed(s) ==> lo <= s.completionTime.value <= hi
    ensures TimedCount(rs) * lo <= TimedTotal(rs) <= TimedCount(rs) * hi
  {
    if |rs| > 0 {
      assert forall s :: s in rs[1..] ==> s in rs;
      TimedTotalBounds(rs[1..], lo, hi);
      assert rs[0] in rs;
      var n := TimedCount(rs[1..]);
      if Timed(rs[0]) {
        assert (n + 1) * lo == n * lo + lo && (n + 1) * hi == n * hi + hi;
      }
    }
  }

  /** The average lies between the shortest and the longest timed completion. */
  lemma AverageWithinRange(rs: seq<Session>, lo: int, hi: int)
    requires forall s :: s in rs && Timed(s) ==> lo <= s.completionTime.value <= hi
    requires TimedCount(rs) > 0
    ensures lo <= AverageTime(rs) <= hi
  {
    TimedTotalBounds(rs, lo, hi);
    Js.RoundedMeanWithin(TimedTotal(rs), TimedCount(rs), lo, hi);
  }

  // ------------------------------------------------------------ source buckets

  /** `acc[key] = (acc[key] || 0) + 1` on an insertion-ordered object. */
  function Bump(acc: seq<(string, nat)>, key: string): (r: seq<(string, nat)>)
    ensures |r| == |acc| || |r| == |acc| + 1
  {
    if |acc| == 0 then [(key, 1)]
    else if acc[0].0 == key then [(key, acc[0].1 + 1)] + acc[1..]
    else [acc[0]] + Bump(acc[1..], key)
  }

  function Lookup(acc: seq<(string, nat)>, key: string): Option<nat> {
    if |acc| == 0 then None else if acc[0].0 == key then Some(acc[0].1) else Lookup(acc[1..], key)
  }

  function Sum(acc: seq<(string, nat)>): nat {
    if |acc| == 0 then 0 else acc[0].1 + Sum(acc[1..])
  }

  const InitialBuckets: seq<(string, nat)> := [("whatsapp", 0), ("web", 0), ("api", 0)]

  /** The buckets after tallying `rs` into the three zeroed ones, in the order `reduce` visits them. */
  function BySource(rs: seq<Session>): seq<(string, nat)>
    decreases |rs|
  {
    if |rs| == 0 then InitialBuckets
    else Bump(BySource(rs[..|rs| - 1]), rs[|rs| - 1].source)
  }


  lemma {:induction false} BumpEffect(acc: seq<(string, nat)>, key: string, other: string)
    ensures Sum(Bump(acc, key)) == Sum(acc) + 1
    ensures Lookup(Bump(acc, key), key) == Some(Lookup(acc, key).GetOr(0) + 1)
    ensures other != key ==> Lookup(Bump(acc, key), other) == Lookup(acc, other)
  {
    if |acc| > 0 && acc[0].0 != key {
      BumpEffect(acc[1..], key, other);
    }
  }

  /**
   * The buckets always hold `whatsapp`, `web` and `api`; every bucket
   * holds the number of responses from its source; and the buckets add up
   * to the number of responses.
   */
  lemma {:induction false} SourceBuckets(rs: seq<Session>, source: string)
    ensures Sum(BySource(rs)) == |rs|
    ensures source in ["whatsapp", "web", "api"] ==> Lookup(BySource(rs), source) == Some(CountSource(rs, source))
    ensures Lookup(BySource(rs), source).Some? ==> Lookup(BySource(rs), source) == Some(CountSource(rs, source))
    ensures CountSource(rs, source) > 0 ==> Lookup(BySource(rs), source).Some?
    decreases |rs|
  {
    if |rs| == 0 {
      assert Lookup(InitialBuckets, source) == Lookup([("web", 0), ("api", 0)], source) || source == "whatsapp";
      assert Lookup([("web", 0), ("api", 0)], source) == Lookup([("api", 0)], source) || source == "web";
      assert Lookup([("api", 0)], source) == Lookup([], source) || source == "api";
    } else {
      var init := rs[..|rs| - 1];
      var last := rs[|rs| - 1];
      SourceBuckets(init, source);
      SourceBuckets(init, last.source);
      BumpEffect(BySource(init), last.source, source);
    }
  }

  // ------------------------------------------------------------ daily totals

  /** A day's entry: responses created that day, and how many of them are completed. */
  datatype Day = Day(date: string, count: nat, completed: nat)

  /** Code-unit order on strings, which is `localeCompare`'s order on `YYYY-MM-DD` dates. */
  predicate Before(a: string, b: string) {
    if |a| == 0 then |b| > 0
    else if |b| == 0 then false
    else a[0] < b[0] || (a[0] == b[0] && Before(a[1..], b[1..]))
  }

  lemma {:induction false} BeforeTransitive(a: string, b: string, c: string)
    requires Before(a, b) && Before(b, c)
    ensures Before(a, c)
  {
    if |a| > 0 && a[0] == b[0] && b[0] == c[0] {
      BeforeTransitive(a[1..], b[1..], c[1..]);
    }
  }

  lemma {:induction false} BeforeTotal(a: string, b: string)
    ensures a == b || Before(a, b) || Before(b, a)
  {
    if |a| > 0 && |b| > 0 && a[0] == b[0] {
      BeforeTotal(a[1..], b[1..]);
      if a[1..] == b[1..] {
        assert a == [a[0]] + a[1..] && b == [b[0]] + b[1..];
      }
    }
  }

  lemma {:induction false} BeforeStrict(a: string, b: string)
    ensures !(Before(a, b) && Before(b, a))
    ensures !Before(a, a)
  {
    if |a| > 0 && |b| > 0 && a[0] == b[0] {
      BeforeStrict(a[1..], b[1..]);
    }
    if |a| > 0 {
      BeforeStrict(a[1..], a[1..]);
    }
  }

  /** Each entry's date comes strictly before the next one's. */
  predicate Ascending(days: seq<Day>) {
    forall i :: 0 <= i < |days| - 1 ==> Before(days[i].date, days[i + 1].date)
  }

  function Dates(days: seq<Day>): (r: set<string>)
    ensures forall d :: d in r <==> exists i :: 0 <= i < |days| && days[i].date == d
  {
    set i | 0 <= i < |days| :: days[i].date
  }

  function Counted(days: seq<Day>): nat {
    if |days| == 0 then 0 else days[0].count + Counted(days[1..])
  }

  function CompletedIn(days: seq<Day>): nat {
    if |days| == 0 then 0 else days[0].completed + CompletedIn(days[1..])
  }

  predicate CompletedWithinCount(days: seq<Day>) {
    forall i :: 0 <= i < |days| ==> days[i].completed <= days[i].count
  }

  /**
   * One response counted into the table kept in date order: its day's
   * entry is bumped, or a new entry is put in its place in the order.
   */
  function AddDay(days: seq<Day>, date: string, done: bool): (r: seq<Day>)
    requires Ascending(days)
    ensures Ascending(r)
    ensures |r| > 0 && (r[0].date == date || (|days| > 0 && r[0].date == days[0].date))
  {
    var d := if done then 1 else 0;
    if |days| == 0 then [Day(date, 1, d)]
    else if days[0].date == date then [Day(date, days[0].count + 1, days[0].completed + d)] + days[1..]
    else if Before(date, days[0].date) then [Day(date, 1, d)] + days
    else
      BeforeTotal(date, days[0].date);
      [days[0]] + AddDay(days[1..], date, done)
  }

  /** Counting one response in adds its date to the table's dates. */
  lemma {:induction false} AddDayDates(days: seq<Day>, date: string, done: bool)
    requires Ascending(days)
    ensures Dates(AddDay(days, date, done)) == Dates(days) + {date}
  {
    var r := AddDay(days, date, done);
    if |days| == 0 {
      DatesCons(r[0], []);
    } else if days[0].date == date {
      assert r == [r[0]] + days[1..];
      DatesCons(r[0], days[1..]);
      DatesCons(days[0], days[1..]);
      assert days == [days[0]] + days[1..];
    } else if Before(date, days[0].date) {
      DatesCons(r[0], days);
    } else {
      var rest := AddDay(days[1..], date, done);
      AddDayDates(days[1..], date, done);
      DatesCons(days[0], rest);
      DatesCons(days[0], days[1..]);
      assert days == [days[0]] + days[1..];
    }
  }

  /**
   * Counting one response in adds one to the total and one to the
   * completions exactly when it is completed, and keeps every entry's
   * completions within its count.
   */
  lemma {:induction false} AddDayCounts(days: seq<Day>, date: string, done: bool)
    requires Ascending(days)
    ensures var r := AddDay(days, date, done);
      && Counted(r) == Counted(days) + 1
      && CompletedIn(r) == CompletedIn(days) + (if done then 1 else 0)
      && (CompletedWithinCount(days) ==> CompletedWithinCount(r))
  {
    if |days| > 0 && days[0].date != date && !Before(date, days[0].date) {
      AddDayCounts(days[1..], date, done);
      var r := AddDay(days, date, done);
      var rest := AddDay(days[1..], date, done);
      if CompletedWithinCount(days) {
        assert forall i :: 0 <= i < |rest| ==> r[i + 1] == rest[i];
      }
    }
  }

  lemma DatesCons(x: Day, rest: seq<Day>)
    ensures Dates([x] + rest) == {x.date} + Dates(rest)
  {
    var r := [x] + rest;
    forall y ensures y in Dates(r) <==> y in {x.date} + Dates(rest) {
      if y in Dates(r) && y != x.date {
        var i :| 0 <= i < |r| && r[i].date == y;
        assert rest[i - 1].date == y;
      }
      if y in Dates(rest) {
        var i :| 0 <= i < |rest| && rest[i].date == y;
        assert r[i + 1].date == y;
      }
      if y == x.date {
        assert r[0].date == y;
      }
    }
  }

  /** Dates strictly ascending, hence no date twice. */
  lemma {:induction false} AscendingDistinct(days: seq<Day>, i: int, j: int)
    requires Ascending(days) && 0 <= i < j < |days|
    ensures Before(days[i].date, days[j].date) && days[i].date != days[j].date
    decreases j - i
  {
    if j == i + 1 {
    } else {
      AscendingDistinct(days, i + 1, j);
      BeforeTransitive(days[i].date, days[i + 1].date, days[j].date);
    }
    BeforeStrict(days[i].date, days[j].date);
  }

  /** The daily table, built from the responses in the order `reduce` visits them. */
  function DailyData(rs: seq<Session>, day: int -> string): (r: seq<Day>)
    ensures Ascending(r)
    decreases |rs|
  {
    if |rs| == 0 then []
    else AddDay(DailyData(rs[..|rs| - 1], day), day(rs[|rs| - 1].createdAt), rs[|rs| - 1].status == Completed)
  }

  /**
   * The daily table has one entry per date on which a response was
   * created, its counts add up to the responses and its completions to the
   * completed ones, and no entry counts more completions than responses.
   */
  lemma {:induction false} DailyTotals(rs: seq<Session>, day: int -> string)
    ensures var r := DailyData(rs, day);
      && CompletedWithinCount(r)
      && Counted(r) == |rs|
      && CompletedIn(r) == CountStatus(rs, Completed)
      && Dates(r) == (set s | s in rs :: day(s.createdAt))
    decreases |rs|
  {
    if |rs| > 0 {
      var init := rs[..|rs| - 1];
      var last := rs[|rs| - 1];
      DailyTotals(init, day);
      AddDayCounts(DailyData(init, day), day(last.createdAt), last.status == Completed);
      AddDayDates(DailyData(init, day), day(last.createdAt), last.status == Completed);
      assert rs == init + [last];
      CountStatusAppend(init, last);
      DaysAppend(init, last, day);
    }
  }

  lemma DaysAppend(init: seq<Session>, last: Session, day: int -> string)
    ensures (set s | s in init + [last] :: day(s.createdAt)) == (set s | s in init :: day(s.createdAt)) + {day(last.createdAt)}
  {
    var a := set s | s in init + [last] :: day(s.createdAt);
    var b := (set s | s in init :: day(s.createdAt)) + {day(last.createdAt)};
    forall x | x in a ensures x in b {
      var s :| s in init + [last] && day(s.createdAt) == x;
      if s != last { assert s in init; }
    }
    forall x | x in b ensures x in a {
      if x != day(last.createdAt) {
        var s :| s in init && day(s.createdAt) == x;
        assert s in init + [last];
      } else {
        assert last in init + [last];
      }
    }
  }

  lemma {:induction false} CountStatusAppend(rs: seq<Session>, last: Session)
    ensures CountStatus(rs + [last], Completed) == CountStatus(rs, Completed) + (if last.status == Completed then 1 else 0)
    decreases |rs|
  {
    if |rs| == 0 {
      assert [last][1..] == [];
    } else {
      assert (rs + [last])[1..] == rs[1..] + [last];
      CountStatusAppend(rs[1..], last);
    }
  }

  // ------------------------------------------------------------ field statistics

  datatype FieldStat = FieldStat(fieldId: string, caption: string, fieldType: string, responses: nat, rate: int)

  /** Stored answers to a field, over every response of every period. */
  function AnswersTo(values: seq<ValueRow>, fieldId: string): (r: nat)
    ensures r <= |values|
  {
    if |values| == 0 then 0 else (if values[0].fieldId == fieldId then 1 else 0) + AnswersTo(values[1..], fieldId)
  }

  function FieldStatOf(f: Field, values: seq<ValueRow>, completed: nat): FieldStat {
    var n := AnswersTo(values, f.id);
    FieldStat(f.id, f.caption, f.fieldType, n, Js.Percent(n, completed))
  }

  /** One entry per field in `order_idx` order, computed only when something was completed. */
  function FieldStats(fields: seq<Field>, values: seq<ValueRow>, completed: nat): (r: seq<FieldStat>)
    ensures completed == 0 ==> r == []
    ensures completed > 0 ==> |r| == |fields|
    ensures completed > 0 ==> forall k :: 0 <= k < |fields| ==>
      r[k].fieldId == fields[k].id && r[k].responses == AnswersTo(values, fields[k].id)
      && r[k].rate == Js.Percent(AnswersTo(values, fields[k].id), completed)
  {
    if completed == 0 then [] else seq(|fields|, k requires 0 <= k < |fields| => FieldStatOf(fields[k], values, completed))
  }

  // ------------------------------------------------------------ the endpoint

  datatype AnalyticsQuery = AnalyticsQuery(formId: Option<string>, period: Option<string>)

  datatype Summary = Summary(
    totalResponses: nat,
    completed: nat,
    inProgress: nat,
    abandoned: nat,
    completionRate: int,
    averageSeconds: int)

  datatype Report = Report(
    formId: string,
    title: string,
    period: string,
    summary: Summary,
    bySource: seq<(string, nat)>,
    fieldStats: seq<FieldStat>,
    daily: seq<Day>)

  /** `period || '7d'`, echoed back whatever it is. */
  function PeriodOf(q: AnalyticsQuery): string {
    Js.OrElse(q.period, "7d")
  }

  /** The responses a report covers. */
  function Covered(q: AnalyticsQuery, store: Store, now: int): seq<Session>
    requires Js.Truthy(q.formId)
  {
    InWindow(store.responses, q.formId.value, now - WindowMs(PeriodOf(q)))
  }

  /**
   * The analytics handler.  `user` is the authenticated caller's id, if
   * any; `now` is the clock and `day` the calendar date of a timestamp.
   */
  function FormAnalytics(user: Option<string>, q: AnalyticsQuery, store: Store, now: int, day: int -> string): (r: Response<Report>)
    ensures user.None? ==> r == Fail(401, "Unauthorized")
    ensures user.Some? && !Js.Truthy(q.formId) ==> r == Fail(400, "Missing required parameter: form_id")
    ensures user.Some? && Js.Truthy(q.formId) && Single(FormCompiler.FormsWithId(store.forms, q.formId.value)).None? ==>
      r == Fail(404, "Form not found")
    ensures (user.Some? && Js.Truthy(q.formId) && Single(FormCompiler.FormsWithId(store.forms, q.formId.value)).Some?
      && Single(FormCompiler.FormsWithId(store.forms, q.formId.value)).value.ownerId != user.value) ==>
      r == Fail(403, "Access denied")
    ensures r.Body? ==> (user.Some? && Js.Truthy(q.formId) && r.body.summary.totalResponses == |Covered(q, store, now)|
      && r.body.period == PeriodOf(q))
    ensures (user.Some? && Js.Truthy(q.formId) && Single(FormCompiler.FormsWithId(store.forms, q.formId.value)).Some?
      && Single(FormCompiler.FormsWithId(store.forms, q.formId.value)).value.ownerId == user.value) ==>
      && r.Body?
      && r.body.formId == q.formId.value
      && r.body.title == Single(FormCompiler.FormsWithId(store.forms, q.formId.value)).value.title
  {
    if user.None? then Fail(401, "Unauthorized")
    else if !Js.Truthy(q.formId) then Fail(400, "Missing required parameter: form_id")
    else
      var formId := q.formId.value;
      match Single(FormCompiler.FormsWithId(store.forms, formId))
      case None => Fail(404, "Form not found")
      case Some(form) =>
        if form.ownerId != user.value then Fail(403, "Access denied")
        else
          var rs := Covered(q, store, now);
          var completed := CountStatus(rs, Completed);
          var summary := Summary(
            |rs|,
            completed,
            CountStatus(rs, InProgress),
            CountStatus(rs, Abandoned),
            Js.Percent(completed, |rs|),
            AverageTime(rs));
          Body(Report(
            form.id, form.title, PeriodOf(q), summary,
            BySource(rs),
            FieldStats(FormFields(store.fields, formId), store.values, completed),
            DailyData(rs, day)))
  }

  /**
   * A report covers exactly the form's responses created within the
   * window; its status counts add up to that total; the completion rate is
   * a percentage, 0 with nothing covered and 100 when all are completed;
   * the source buckets add up to the total; and the daily entries come in
   * strictly ascending date order, one per day with a response, never
   * counting more completions than responses, and adding up to the total
   * and to the completed count.
   */
  lemma ReportConsistent(user: Option<string>, q: AnalyticsQuery, store: Store, now: int, day: int -> string)
    requires FormAnalytics(user, q, store, now, day).Body?
    ensures var rep := FormAnalytics(user, q, store, now, day).body;
      var rs := Covered(q, store, now);
      var sm := rep.summary;
      && (forall s :: s in rs <==> (s in store.responses && s.formId == q.formId.value
            && s.createdAt >= now - WindowMs(PeriodOf(q))))
      && sm.completed + sm.inProgress + sm.abandoned == sm.totalResponses
      && 0 <= sm.completionRate <= 100
      && (sm.totalResponses == 0 ==> sm.completionRate == 0)
      && (sm.totalResponses > 0 && sm.completed == sm.totalResponses ==> sm.completionRate == 100)
      && Sum(rep.bySource) == sm.totalResponses
      && Ascending(rep.daily) && CompletedWithinCount(rep.daily)
      && Counted(rep.daily) == sm.totalResponses && CompletedIn(rep.daily) == sm.completed
      && Dates(rep.daily) == (set s | s in rs :: day(s.createdAt))
      && (sm.completed == 0 ==> rep.fieldStats == [])
      && (sm.completed > 0 ==> |rep.fieldStats| == |FormFields(store.fields, q.formId.value)|)
  {
    var rs := Covered(q, store, now);
    StatusCountsSum(rs);
    Js.PercentBounds(CountStatus(rs, Completed), |rs|);
    SourceBuckets(rs, "");
    DailyTotals(rs, day);
  }
}
