/**
 * The response listing endpoint of `server/api/responses/list.get.ts`:
 * query normalisation (limit, offset, whitelisted filters and sort field),
 * the ordered and paged rows, `has_more`, and the per-status counts that
 * are only gathered for the first page.
 */
module ListResponses {
  import opened Wrappers
  import opened Text
  import Js
  import opened Records
  import Sorting
  import FormCompiler
  import opened Http

  datatype ListQuery = ListQuery(
    formId: Option<string>,
    status: Option<string>,
    source: Option<string>,
    limit: Option<string>,
    offset: Option<string>,
    sortBy: Option<string>,
    sortOrder: Option<string>)

  // ------------------------------------------------------------ normalisation

  /** `Math.min(parseInt(limit || '50'), 500)`; `None` stands for `NaN`. */
  function LimitOf(q: ListQuery): (r: Option<int>)
    ensures r.Some? ==> r.value <= 500
  {
    match Js.ParseInt(Js.OrElse(q.limit, "50"))
    case None => None
    case Some(n) => Some(if n < 500 then n else 500)
  }

  /** `parseInt(offset || '0')`. */
  function OffsetOf(q: ListQuery): Option<int> {
    Js.ParseInt(Js.OrElse(q.offset, "0"))
  }

  /**
   * A limit written in decimal is honoured up to 500, and a missing or
   * empty one is 50; a missing or empty offset is 0.
   */
  lemma LimitAndOffsetDefaults(q: ListQuery, n: int)
    ensures q.limit == Some(IntToString(n)) ==> LimitOf(q) == Some(if n < 500 then n else 500)
    ensures !Js.Truthy(q.limit) ==> LimitOf(q) == Some(50)
    ensures q.offset == Some(IntToString(n)) ==> OffsetOf(q) == Some(n)
    ensures !Js.Truthy(q.offset) ==> OffsetOf(q) == Some(0)
  {
    ParseWritten(n);
    ParseDefaults();
  }

  lemma ParseWritten(n: int)
    ensures Js.ParseInt(IntToString(n)) == Some(n)
  {
    Js.ParseIntReadsDecimal(n, "");
    assert IntToString(n) + "" == IntToString(n);
  }

  /** The default texts read as 50 and 0. */
  lemma ParseDefaults()
    ensures Js.ParseInt("50") == Some(50) && Js.ParseInt("0") == Some(0)
  {
    Js.ParseIntReadsDecimal(50, "");
    Js.ParseIntReadsDecimal(0, "");
    assert IntToString(50) + "" == "50" && IntToString(0) + "" == "0" by {
      assert NatToString(50) == NatToString(5) + [DigitChar(0)];
    }
  }

  /** The status filter, applied only for one of the three status names. */
  function StatusFilter(q: ListQuery): (r: Option<Status>)
    ensures r.Some? <==> Js.Truthy(q.status) && q.status.value in ["in_progress", "completed", "abandoned"]
    ensures r.Some? ==> StatusName(r.value) == q.status.value
  {
    if Js.Truthy(q.status) then ParseStatus(q.status.value) else None
  }

  /** The source filter, applied only for `whatsapp`, `web` or `api`. */
  function SourceFilter(q: ListQuery): (r: Option<string>)
    ensures r.Some? <==> Js.Truthy(q.source) && q.source.value in ["whatsapp", "web", "api"]
    ensures r.Some? ==> r == q.source
  {
    if Js.Truthy(q.source) && q.source.value in ["whatsapp", "web", "api"] then q.source else None
  }

  datatype SortField = CreatedAt | CompletedAt | CompletionTime | UpdatedAt

  function SortFieldName(f: SortField): string {
    match f
    case CreatedAt => "created_at"
    case CompletedAt => "completed_at"
    case CompletionTime => "completion_time_seconds"
    case UpdatedAt => "updated_at"
  }

  /** The four columns a listing may be sorted on. */
  predicate Sortable(name: string) {
    name in ["created_at", "completed_at", "completion_time_seconds", "updated_at"]
  }

  /** `sort_by` when it names one of the four sortable columns, else `created_at`. */
  function SortFieldOf(q: ListQuery): (r: SortField)
    ensures Js.Truthy(q.sortBy) && Sortable(q.sortBy.value) ==> SortFieldName(r) == q.sortBy.value
    ensures !(Js.Truthy(q.sortBy) && Sortable(q.sortBy.value)) ==> r == CreatedAt
  {
    var name := Js.OrElse(q.sortBy, "created_at");
    if name == "completed_at" then CompletedAt
    else if name == "completion_time_seconds" then CompletionTime
    else if name == "updated_at" then UpdatedAt
    else CreatedAt
  }

  /** `(sort_order || 'desc')`, echoed back as given. */
  function SortOrderOf(q: ListQuery): string {
    Js.OrElse(q.sortOrder, "desc")
  }

  // ------------------------------------------------------------ ordering

  /** The column a row is sorted on; the completion columns may be null. */
  function KeyOf(s: Session, f: SortField): Option<int> {
    match f
    case CreatedAt => Some(s.createdAt)
    case CompletedAt => s.completedAt
    case CompletionTime => s.completionTime
    case UpdatedAt => Some(s.updatedAt)
  }

  /**
   * Two keys in result order: ascending puts nulls last, descending puts
   * them first (the database's default placement of nulls).
   */
  predicate InOrder(a: Option<int>, b: Option<int>, ascending: bool) {
    if ascending then (a.Some? && b.Some? ==> a.value <= b.value) && (a.None? ==> b.None?)
    else (a.Some? && b.Some? ==> a.value >= b.value) && (b.None? ==> a.None?)
  }

  /** The rows whose sort column is present (or, with `present` false, null), in table order. */
  function Keyed(rows: seq<Session>, f: SortField, present: bool): (r: seq<Session>)
    ensures forall s :: s in r <==> s in rows && KeyOf(s, f).Some? == present
  {
    if |rows| == 0 then []
    else
      assert forall s :: s in rows <==> s == rows[0] || s in rows[1..];
      var rest := Keyed(rows[1..], f, present);
      if KeyOf(rows[0], f).Some? == present then [rows[0]] + rest else rest
  }

  /** The keyed rows and the null ones together are the rows. */
  lemma {:induction false} KeyedSplit(rows: seq<Session>, f: SortField)
    ensures multiset(Keyed(rows, f, true)) + multiset(Keyed(rows, f, false)) == multiset(rows)
  {
    if |rows| > 0 {
      KeyedSplit(rows[1..], f);
      assert rows == [rows[0]] + rows[1..];
    }
  }

  /** Every pair of rows is in result order. */
  predicate OrderedBy(r: seq<Session>, f: SortField, ascending: bool) {
    forall i, j :: 0 <= i < j < |r| ==> InOrder(KeyOf(r[i], f), KeyOf(r[j], f), ascending)
  }

  /** The sort key of a row whose column is present, negated for descending order. */
  function SortKey(f: SortField, ascending: bool): Session -> int {
    (s: Session) => if ascending then KeyOf(s, f).GetOr(0) else -KeyOf(s, f).GetOr(0)
  }

  lemma SortedKeysInOrder(sorted: seq<Session>, f: SortField, ascending: bool)
    requires Sorting.SortedBy(sorted, SortKey(f, ascending))
    requires forall s :: s in sorted ==> KeyOf(s, f).Some?
    ensures OrderedBy(sorted, f, ascending)
  {
    forall i, j | 0 <= i < j < |sorted| ensures InOrder(KeyOf(sorted[i], f), KeyOf(sorted[j], f), ascending) {
      assert sorted[i] in sorted && sorted[j] in sorted;
      assert SortKey(f, ascending)(sorted[i]) <= SortKey(f, ascending)(sorted[j]);
    }
  }

  /** Nulls after the present keys keep an ascending order; nulls before them keep a descending one. */
  lemma NullsPlaced(sorted: seq<Session>, nulls: seq<Session>, f: SortField, ascending: bool)
    requires OrderedBy(sorted, f, ascending)
    requires forall s :: s in sorted ==> KeyOf(s, f).Some?
    requires forall s :: s in nulls ==> KeyOf(s, f).None?
    ensures OrderedBy(if ascending then sorted + nulls else nulls + sorted, f, ascending)
  {
    var r := if ascending then sorted + nulls else nulls + sorted;
    forall i, j | 0 <= i < j < |r| ensures InOrder(KeyOf(r[i], f), KeyOf(r[j], f), ascending) {
      if ascending {
        if j < |sorted| {
          assert r[i] == sorted[i] && r[j] == sorted[j];
        } else {
          assert r[j] == nulls[j - |sorted|];
          assert r[j] in nulls;
        }
      } else {
        if i >= |nulls| {
          assert r[i] == sorted[i - |nulls|] && r[j] == sorted[j - |nulls|];
        } else {
          assert r[i] == nulls[i];
          assert r[i] in nulls;
        }
      }
    }
  }

  /** `.order(field, { ascending })` over the filtered rows. */
  function Ordered(rows: seq<Session>, f: SortField, ascending: bool): (r: seq<Session>)
    ensures multiset(r) == multiset(rows) && |r| == |rows|
    ensures OrderedBy(r, f, ascending)
  {
    var keyed := Keyed(rows, f, true);
    var nulls := Keyed(rows, f, false);
    var sorted := Sorting.SortBy(keyed, SortKey(f, ascending));
    assert forall s :: s in sorted ==> KeyOf(s, f).Some? by {
      forall s | s in sorted ensures KeyOf(s, f).Some? {
        Sorting.SortBySameRows(keyed, SortKey(f, ascending), s);
      }
    }
    SortedKeysInOrder(sorted, f, ascending);
    NullsPlaced(sorted, nulls, f, ascending);
    var r := if ascending then sorted + nulls else nulls + sorted;
    assert multiset(r) == multiset(rows) by {
      KeyedSplit(rows, f);
      assert multiset(r) == multiset(sorted) + multiset(nulls);
    }
    assert |r| == |multiset(r)|;
    r
  }

  // ------------------------------------------------------------ filtering and paging

  /** The form's rows passing the whitelisted filters, in table order. */
  function Matching(rows: seq<Session>, formId: string, status: Option<Status>, source: Option<string>): (r: seq<Session>)
    ensures |r| <= CountForm(rows, formId)
    ensures forall s :: s in r <==> (s in rows && s.formId == formId
      && (status.Some? ==> s.status == status.value) && (source.Some? ==> s.source == source.value))
  {
    if |rows| == 0 then []
    else
      var rest := Matching(rows[1..], formId, status, source);
      assert forall s :: s in rows <==> s == rows[0] || s in rows[1..];
      var s := rows[0];
      if s.formId == formId && (status.Some? ==> s.status == status.value) && (source.Some? ==> s.source == source.value)
      then [s] + rest else rest
  }

  /** `.range(offset, offset + limit - 1)`: at most `limit` rows, starting at `offset`. */
  function Page(rows: seq<Session>, limit: nat, offset: nat): (r: seq<Session>)
    ensures |r| <= limit
    ensures offset <= |rows| ==> |r| == (if offset + limit <= |rows| then limit else |rows| - offset)
    ensures offset > |rows| ==> r == []
    ensures forall k :: 0 <= k < |r| ==> r[k] == rows[offset + k]
  {
    if offset >= |rows| then []
    else if offset + limit <= |rows| then rows[offset..offset + limit]
    else rows[offset..]
  }

  /** Rows of a form with a status. */
  function CountStatus(rows: seq<Session>, formId: string, status: Status): (r: nat)
    ensures r <= |rows|
  {
    if |rows| == 0 then 0
    else (if rows[0].formId == formId && rows[0].status == status then 1 else 0) + CountStatus(rows[1..], formId, status)
  }

  function CountForm(rows: seq<Session>, formId: string): (r: nat)
    ensures r <= |rows|
  {
    if |rows| == 0 then 0
    else (if rows[0].formId == formId then 1 else 0) + CountForm(rows[1..], formId)
  }

  /** Every row has one of the three statuses, so the per-status counts add up to the form's rows. */
  lemma {:induction false} StatusCountsSum(rows: seq<Session>, formId: string)
    ensures CountStatus(rows, formId, Completed) + CountStatus(rows, formId, InProgress) + CountStatus(rows, formId, Abandoned)
      == CountForm(rows, formId)
  {
    if |rows| > 0 {
      StatusCountsSum(rows[1..], formId);
    }
  }

  // ------------------------------------------------------------ the endpoint

  datatype Stats = Stats(total: nat, completed: nat, inProgress: nat, abandoned: nat)

  datatype Filters = Filters(status: Option<string>, source: Option<string>, sortBy: string, sortOrder: string)

  datatype ListPage = ListPage(
    data: seq<Session>,
    limit: int,
    offset: int,
    total: nat,
    hasMore: bool,
    stats: Stats,
    filters: Filters)

  /** The rows the query selects, in result order, before paging. */
  function Selection(q: ListQuery, store: Store): seq<Session>
    requires Js.Truthy(q.formId)
  {
    var rows := Matching(store.responses, q.formId.value, StatusFilter(q), SourceFilter(q));
    Ordered(rows, SortFieldOf(q), SortOrderOf(q) == "asc")
  }

  /**
   * The listing handler with its page taken as
   * `.range(offset, offset + limit - 1)`.  `user` is the authenticated
   * caller's id, if any.  A limit or offset that is not a non-negative
   * number reaches the database as such, and its refusal, whose text is
   * `rejection`, becomes a 500 with that text.
   */
  function ListResponses(user: Option<string>, q: ListQuery, store: Store, rejection: string): (r: Response<ListPage>)
    ensures user.None? ==> r == Fail(401, "Unauthorized")
    ensures user.Some? && !Js.Truthy(q.formId) ==> r == Fail(400, "Missing required parameter: form_id")
    ensures user.Some? && Js.Truthy(q.formId) && Single(FormCompiler.FormsWithId(store.forms, q.formId.value)).None? ==>
      r == Fail(404, "Form not found")
    ensures (user.Some? && Js.Truthy(q.formId) && Single(FormCompiler.FormsWithId(store.forms, q.formId.value)).Some?
      && Single(FormCompiler.FormsWithId(store.forms, q.formId.value)).value.ownerId != user.value) ==>
      r == Fail(403, "Access denied - you do not own this form")
    ensures r.Body? ==> (LimitOf(q) == Some(r.body.limit) && OffsetOf(q) == Some(r.body.offset)
      && 0 <= r.body.limit <= 500 && 0 <= r.body.offset)
    ensures r.Body? ==> r.body.filters == Filters(if Js.Truthy(q.status) then q.status else None,
      if Js.Truthy(q.source) then q.source else None, SortFieldName(SortFieldOf(q)), SortOrderOf(q))
    ensures (user.Some? && Js.Truthy(q.formId) && Single(FormCompiler.FormsWithId(store.forms, q.formId.value)).Some?
      && Single(FormCompiler.FormsWithId(store.forms, q.formId.value)).value.ownerId == user.value) ==>
      if LimitOf(q).Some? && OffsetOf(q).Some? && LimitOf(q).value >= 0 && OffsetOf(q).value >= 0 then r.Body?
      else r == Fail(500, rejection)
    ensures r.Body? ==> (user.Some? && Js.Truthy(q.formId)
      && Single(FormCompiler.FormsWithId(store.forms, q.formId.value)).Some?
      && Single(FormCompiler.FormsWithId(store.forms, q.formId.value)).value.ownerId == user.value)
    ensures r.Body? ==> (r.body.data == Page(Selection(q, store), r.body.limit, r.body.offset)
      && r.body.total == |Selection(q, store)|)
  {
    if user.None? then Fail(401, "Unauthorized")
    else if !Js.Truthy(q.formId) then Fail(400, "Missing required parameter: form_id")
    else
      var formId := q.formId.value;
      match Single(FormCompiler.FormsWithId(store.forms, formId))
      case None => Fail(404, "Form not found")
      case Some(form) =>
        if form.ownerId != user.value then Fail(403, "Access denied - you do not own this form")
        else
          var limit := LimitOf(q);
          var offset := OffsetOf(q);
          if limit.None? || offset.None? || limit.value < 0 || offset.value < 0 then Fail(500, rejection)
          else
            var rows := Selection(q, store);
            var total := |rows|;
            var stats :=
              if offset.value == 0 then
                Stats(total,
                  CountStatus(store.responses, formId, Completed),
                  CountStatus(store.responses, formId, InProgress),
                  CountStatus(store.responses, formId, Abandoned))
              else Stats(total, 0, 0, 0);
            Body(ListPage(
              Page(rows, limit.value, offset.value),
              limit.value,
              offset.value,
              total,
              offset.value + limit.value < total,
              stats,
              Filters(if Js.Truthy(q.status) then q.status else None,
                if Js.Truthy(q.source) then q.source else None,
                SortFieldName(SortFieldOf(q)), SortOrderOf(q))))
  }

  /**
   * The listing handler as written.  Once the caller owns the form, the
   * query chain calls `.offset(offset)`, which the Supabase query builder
   * does not have (it pages with `limit` and `range`); the TypeError lands
   * in the catch-all, which answers 500.
   */
  function ListResponsesAsWritten(user: Option<string>, q: ListQuery, store: Store): (r: Response<ListPage>)
    ensures r.Fail?
    ensures user.None? ==> r == Fail(401, "Unauthorized")
    ensures user.Some? && !Js.Truthy(q.formId) ==> r == Fail(400, "Missing required parameter: form_id")
    ensures user.Some? && Js.Truthy(q.formId) && Single(FormCompiler.FormsWithId(store.forms, q.formId.value)).None? ==>
      r == Fail(404, "Form not found")
    ensures (user.Some? && Js.Truthy(q.formId) && Single(FormCompiler.FormsWithId(store.forms, q.formId.value)).Some?) ==>
      r == (if Single(FormCompiler.FormsWithId(store.forms, q.formId.value)).value.ownerId != user.value
            then Fail(403, "Access denied - you do not own this form")
            else Fail(500, "Failed to list responses"))
  {
    if user.None? then Fail(401, "Unauthorized")
    else if !Js.Truthy(q.formId) then Fail(400, "Missing required parameter: form_id")
    else
      match Single(FormCompiler.FormsWithId(store.forms, q.formId.value))
      case None => Fail(404, "Form not found")
      case Some(form) =>
        if form.ownerId != user.value then Fail(403, "Access denied - you do not own this form")
        else Fail(500, "Failed to list responses")
  }

  /**
   * The two handlers refuse the same requests for the same reasons before
   * the query runs; every page the ranged handler lists is a 500 as
   * written.
   */
  lemma OffsetBreaksEveryPage(user: Option<string>, q: ListQuery, store: Store, rejection: string)
    ensures ListResponses(user, q, store, rejection).Body? ==>
      ListResponsesAsWritten(user, q, store) == Fail(500, "Failed to list responses")
    ensures ListResponses(user, q, store, rejection).Fail? && ListResponses(user, q, store, rejection).status != 500 ==>
      ListResponsesAsWritten(user, q, store) == ListResponses(user, q, store, rejection)
  {
  }

  /** An owner listing their own form with the default query: a page when ranged, a 500 as written. */
  lemma OwnerListingFails()
    ensures var store := Store([Form("f", "K", "T", true, None, "u")], [], [], []);
      var q := ListQuery(Some("f"), None, None, None, None, None, None);
      && ListResponses(Some("u"), q, store, "").Body?
      && ListResponses(Some("u"), q, store, "").body.limit == 50
      && ListResponsesAsWritten(Some("u"), q, store) == Fail(500, "Failed to list responses")
  {
    var form := Form("f", "K", "T", true, None, "u");
    var store := Store([form], [], [], []);
    var q := ListQuery(Some("f"), None, None, None, None, None, None);
    assert FormCompiler.FormsWithId(store.forms, "f") == [form];
    LimitAndOffsetDefaults(q, 0);
  }

  /**
   * A listed page holds consecutive rows of the form's filtered responses,
   * in the requested order, and `has_more` says exactly whether any of
   * those rows come after it.
   */
  lemma PageContents(user: Option<string>, q: ListQuery, store: Store, rejection: string)
    requires ListResponses(user, q, store, rejection).Body?
    ensures var p := ListResponses(user, q, store, rejection).body;
      var formId := q.formId.value;
      && |p.data| <= p.limit
      && (forall s :: s in p.data ==> (s in store.responses && s.formId == formId
            && (StatusFilter(q).Some? ==> s.status == StatusFilter(q).value)
            && (SourceFilter(q).Some? ==> s.source == SourceFilter(q).value)))
      && OrderedBy(p.data, SortFieldOf(q), SortOrderOf(q) == "asc")
      && (p.hasMore <==> p.offset + |p.data| < p.total)
      && p.total == |Matching(store.responses, formId, StatusFilter(q), SourceFilter(q))|
      && p.data == Page(Selection(q, store), p.limit, p.offset)
      && (forall k :: 0 <= k < |p.data| ==> p.data[k] == Selection(q, store)[p.offset + k])
      && (p.offset <= p.total ==> |p.data| == if p.total - p.offset < p.limit then p.total - p.offset else p.limit)
  {
    var p := ListResponses(user, q, store, rejection).body;
    var rows := Selection(q, store);
    assert p.data == Page(rows, p.limit, p.offset) && p.total == |rows|;
    PageOfOrdered(rows, p.limit, p.offset, SortFieldOf(q), SortOrderOf(q) == "asc");
    var matching := Matching(store.responses, q.formId.value, StatusFilter(q), SourceFilter(q));
    forall s | s in p.data ensures s in matching {
      assert s in rows;
      assert s in multiset(rows);
    }
  }

  /** A page of ordered rows is ordered, holds only those rows, and leaves rows after it exactly when `offset + limit` falls short. */
  lemma PageOfOrdered(rows: seq<Session>, limit: nat, offset: nat, f: SortField, ascending: bool)
    requires OrderedBy(rows, f, ascending)
    ensures var page := Page(rows, limit, offset);
      && OrderedBy(page, f, ascending)
      && (forall s :: s in page ==> s in rows)
      && (offset + limit < |rows| <==> offset + |page| < |rows|)
  {
    var page := Page(rows, limit, offset);
    forall i, j | 0 <= i < j < |page| ensures InOrder(KeyOf(page[i], f), KeyOf(page[j], f), ascending) {
      assert page[i] == rows[offset + i] && page[j] == rows[offset + j];
    }
    forall s | s in page ensures s in rows {
      var k :| 0 <= k < |page| && page[k] == s;
      assert s == rows[offset + k];
    }
  }

  /**
   * The per-status counts are gathered for the first page only: there they
   * count all of the form's responses, whatever the filters, and on any
   * later page they are zero.
   */
  lemma StatsOnFirstPage(user: Option<string>, q: ListQuery, store: Store, rejection: string)
    requires ListResponses(user, q, store, rejection).Body?
    ensures var p := ListResponses(user, q, store, rejection).body;
      && p.stats.total == p.total
      && (p.offset != 0 ==> p.stats.completed == 0 && p.stats.inProgress == 0 && p.stats.abandoned == 0)
      && (p.offset == 0 ==> p.stats.completed + p.stats.inProgress + p.stats.abandoned == CountForm(store.responses, q.formId.value))
      && p.total <= |store.responses|
  {
    StatusCountsSum(store.responses, q.formId.value);
  }
}
