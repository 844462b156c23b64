/**
 * Database rows of the form engine and the table queries the server code
 * runs against them.  Tables are sequences in storage order; `.eq(...)`
 * filters keep that order, `.order(...)` is a stable sort (ties keep table
 * order) and `.single()` yields a row only when exactly one row matched.
 * Timestamps are milliseconds since the epoch.
 */
module Records {
  import opened Wrappers
  import Sorting

  /** One entry of a field's `meta.options`; `caption` is its `label`. */
  datatype Choice = Choice(id: string, caption: string)

  /**
   * The parts of a field's `meta` JSON that the server reads:
   * `options`, the truthiness of `validations.required`, and the integer
   * bounds `min`/`max` of number fields.
   */
  datatype Meta = Meta(options: Option<seq<Choice>>, requiredRule: bool, min: Option<int>, max: Option<int>)

  /** A `form_fields` row; `fieldType` is the `type` column and `caption` the `label` column. */
  datatype Field = Field(
    id: string,
    formId: string,
    fieldKey: string,
    fieldType: string,
    caption: string,
    placeholder: Option<string>,
    isRequired: Option<bool>,
    orderIdx: int,
    meta: Option<Meta>)

  datatype Status = InProgress | Completed | Abandoned

  function StatusName(s: Status): string {
    match s
    case InProgress => "in_progress"
    case Completed => "completed"
    case Abandoned => "abandoned"
  }

  /** The status named by `name`, if it names one. */
  function ParseStatus(name: string): (r: Option<Status>)
    ensures r.None? ==> forall s :: StatusName(s) != name
    ensures r.Some? ==> StatusName(r.value) == name
  {
    if name == "in_progress" then Some(InProgress)
    else if name == "completed" then Some(Completed)
    else if name == "abandoned" then Some(Abandoned)
    else None
  }

  /** A `form_responses` row, called a session by the chat engine. */
  datatype Session = Session(
    id: nat,
    formId: string,
    phone: string,
    name: Option<string>,
    status: Status,
    source: string,
    version: int,
    currentStep: Option<string>,
    createdAt: int,
    updatedAt: int,
    lastActivityAt: int,
    completedAt: Option<int>,
    completionTime: Option<int>)

  /** A `form_response_values` row. */
  datatype ValueRow = ValueRow(id: nat, responseId: nat, fieldId: string, value: string, createdAt: int)

  /** A `forms` row. */
  datatype Form = Form(
    id: string,
    formKey: string,
    title: string,
    isPublished: bool,
    flowVersion: Option<int>,
    ownerId: string)

  /** The four tables the engine reads and writes. */
  datatype Store = Store(forms: seq<Form>, fields: seq<Field>, responses: seq<Session>, values: seq<ValueRow>)

  /** `.single()`: the row when exactly one matched. */
  function Single<T>(rows: seq<T>): (r: Option<T>)
    ensures r.Some? <==> |rows| == 1
    ensures r.Some? ==> r.value in rows
  {
    if |rows| == 1 then Some(rows[0]) else None
  }

  /** The error text `.single()` reports when not exactly one row matched. */
  const NotSingleError := "JSON object requested, multiple (or no) rows returned"

  /** `.limit(1)` followed by `.single()`: the first row, if any. */
  function First<T>(rows: seq<T>): (r: Option<T>)
    ensures r.None? <==> |rows| == 0
    ensures r.Some? ==> r.value == rows[0]
  {
    if |rows| == 0 then None else Some(rows[0])
  }

  /** `form_fields` rows of one form, in table order. */
  function FieldsOf(fields: seq<Field>, formId: string): (r: seq<Field>)
    ensures forall f :: f in r <==> f in fields && f.formId == formId
    ensures |r| <= |fields|
  {
    if |fields| == 0 then []
    else
      var rest := FieldsOf(fields[1..], formId);
      assert forall f :: f in fields <==> f == fields[0] || f in fields[1..];
      if fields[0].formId == formId then [fields[0]] + rest else rest
  }

  /** `form.flow_version || 1`: a missing or zero version reads as 1. */
  function FlowVersion(form: Form): (r: int)
    ensures r != 0
    ensures form.flowVersion.Some? && form.flowVersion.value != 0 ==> r == form.flowVersion.value
  {
    if form.flowVersion.Some? && form.flowVersion.value != 0 then form.flowVersion.value else 1
  }

  function OrderIdx(f: Field): int { f.orderIdx }

  /** The fields of a form ordered by `order_idx` ascending. */
  function FormFields(fields: seq<Field>, formId: string): (r: seq<Field>)
    ensures Sorting.SortedBy(r, OrderIdx)
    ensures forall f :: f in r <==> f in fields && f.formId == formId
  {
    var r := Sorting.SortBy(FieldsOf(fields, formId), OrderIdx);
    assert forall f :: f in r <==> f in FieldsOf(fields, formId) by {
      forall f ensures f in r <==> f in FieldsOf(fields, formId) {
        Sorting.SortBySameRows(FieldsOf(fields, formId), OrderIdx, f);
      }
    }
    r
  }

  /** Position of the first field with the given id (JavaScript `findIndex`). */
  function IndexOfField(fields: seq<Field>, id: string): (r: Option<nat>)
    ensures r.Some? ==> r.value < |fields| && fields[r.value].id == id
    ensures r.Some? ==> forall k :: 0 <= k < r.value ==> fields[k].id != id
    ensures r.None? ==> forall k :: 0 <= k < |fields| ==> fields[k].id != id
  {
    if |fields| == 0 then None
    else if fields[0].id == id then Some(0)
    else
      match IndexOfField(fields[1..], id)
      case None => None
      case Some(k) => Some(k + 1)
  }

  /** The row with the given id, if any (ids are unique in a well-formed table). */
  function SessionById(responses: seq<Session>, id: nat): (r: Option<Session>)
    ensures r.Some? ==> r.value in responses && r.value.id == id
    ensures r.None? ==> forall s :: s in responses ==> s.id != id
  {
    if |responses| == 0 then None
    else if responses[0].id == id then Some(responses[0])
    else SessionById(responses[1..], id)
  }

  /** `update(...).eq('id', s.id)`: every row with that id becomes `s`. */
  function ReplaceSession(responses: seq<Session>, s: Session): (r: seq<Session>)
    ensures |r| == |responses|
    ensures forall k :: 0 <= k < |r| ==> r[k] == (if responses[k].id == s.id then s else responses[k])
  {
    seq(|responses|, k requires 0 <= k < |responses| => if responses[k].id == s.id then s else responses[k])
  }

  /** A fresh response id: larger than every id in the table. */
  function NextSessionId(responses: seq<Session>): (r: nat)
    ensures forall s :: s in responses ==> s.id < r
  {
    if |responses| == 0 then 1
    else
      var rest := NextSessionId(responses[1..]);
      assert forall s :: s in responses ==> s == responses[0] || s in responses[1..];
      if responses[0].id < rest then rest else responses[0].id + 1
  }

  /** A fresh value-row id. */
  function NextValueId(values: seq<ValueRow>): (r: nat)
    ensures forall v :: v in values ==> v.id < r
  {
    if |values| == 0 then 1
    else
      var rest := NextValueId(values[1..]);
      assert forall v :: v in values ==> v == values[0] || v in values[1..];
      if values[0].id < rest then rest else values[0].id + 1
  }

  /** The answers stored for a response. */
  function ValuesOf(values: seq<ValueRow>, responseId: nat): (r: seq<ValueRow>)
    ensures forall v :: v in r <==> v in values && v.responseId == responseId
  {
    if |values| == 0 then []
    else
      var rest := ValuesOf(values[1..], responseId);
      assert forall v :: v in values <==> v == values[0] || v in values[1..];
      if values[0].responseId == responseId then [values[0]] + rest else rest
  }

  /** Response ids are unique, as the primary key guarantees. */
  predicate UniqueIds(responses: seq<Session>) {
    forall i, j :: 0 <= i < j < |responses| ==> responses[i].id != responses[j].id
  }

  /** Replacing a row by one with the same id keeps the ids unique and the row findable. */
  lemma ReplaceKeepsIds(responses: seq<Session>, s: Session)
    requires UniqueIds(responses)
    ensures UniqueIds(ReplaceSession(responses, s))
    ensures SessionById(responses, s.id).Some? ==> SessionById(ReplaceSession(responses, s), s.id) == Some(s)
  {
    var r := ReplaceSession(responses, s);
    if SessionById(responses, s.id).Some? {
      var old_ := SessionById(responses, s.id).value;
      var k :| 0 <= k < |responses| && responses[k] == old_;
      assert r[k] == s;
      FoundById(r, s.id, k);
    }
  }

  /** In a table with unique ids, the row at a position is the one found by its id. */
  lemma FoundById(responses: seq<Session>, id: nat, k: nat)
    requires UniqueIds(responses)
    requires k < |responses| && responses[k].id == id
    ensures SessionById(responses, id) == Some(responses[k])
  {
    if k > 0 {
      assert responses[0].id != id;
      assert UniqueIds(responses[1..]) by {
        forall i, j | 0 <= i < j < |responses[1..]|
          ensures responses[1..][i].id != responses[1..][j].id
        {
          assert responses[1..][i] == responses[i + 1] && responses[1..][j] == responses[j + 1];
        }
      }
      FoundById(responses[1..], id, k - 1);
    }
  }

  // ------------------------------------------------------------ filters

  /** The `id` column of each table, as a key for `Without`. */
  function IdOfField(f: Field): string { f.id }
  function IdOfForm(f: Form): string { f.id }
  function IdOfSession(s: Session): nat { s.id }

  /**
   * `rows.filter(x => key(x) !== id)`: every row whose key is `id` leaves,
   * each other row stays as often as it occurred.
   */
  function Without<T, K(==)>(rows: seq<T>, key: T -> K, id: K): seq<T> {
    if |rows| == 0 then []
    else (if key(rows[0]) != id then [rows[0]] else []) + Without(rows[1..], key, id)
  }

  /** Every row whose key is `id` leaves; each other row stays as often as it occurred. */
  lemma {:induction false} WithoutCounts<T(!new), K>(rows: seq<T>, key: T -> K, id: K)
    ensures var r := Without(rows, key, id);
      && (forall x :: multiset(r)[x] == (if key(x) != id then multiset(rows)[x] else 0))
      && (forall x :: x in r <==> x in rows && key(x) != id)
  {
    if |rows| > 0 {
      WithoutCounts(rows[1..], key, id);
      assert rows == [rows[0]] + rows[1..];
    }
  }

  /** Filtering a list with a first row: that row, when kept, then the filtered rest. */
  lemma WithoutCons<T(!new), K>(x: T, rows: seq<T>, key: T -> K, id: K)
    ensures Without([x] + rows, key, id) == (if key(x) != id then [x] else []) + Without(rows, key, id)
  {
    assert ([x] + rows)[1..] == rows;
  }

  /**
   * Filtering distributes over concatenation; with the one-row case this
   * means the kept rows stay in their order.
   */
  lemma {:induction false} WithoutAppend<T(!new), K>(a: seq<T>, b: seq<T>, key: T -> K, id: K)
    ensures Without(a + b, key, id) == Without(a, key, id) + Without(b, key, id)
    ensures |a| == 1 ==> Without(a, key, id) == if key(a[0]) != id then a else []
  {
    if |a| == 0 {
      assert a + b == b;
    } else {
      var h := if key(a[0]) != id then [a[0]] else [];
      var wa, wb := Without(a[1..], key, id), Without(b, key, id);
      WithoutAppend(a[1..], b, key, id);
      assert (a + b)[1..] == a[1..] + b;
      assert Without(a + b, key, id) == h + (wa + wb);
      assert Without(a, key, id) == h + wa;
      assert h + (wa + wb) == (h + wa) + wb;
    }
  }

  /** Filtering keeps the list when no row has the id, and filtering twice is filtering once. */
  lemma {:induction false} WithoutStable<T(!new), K>(rows: seq<T>, key: T -> K, id: K)
    ensures (forall k :: 0 <= k < |rows| ==> key(rows[k]) != id) ==> Without(rows, key, id) == rows
    ensures Without(Without(rows, key, id), key, id) == Without(rows, key, id)
  {
    if |rows| > 0 {
      WithoutStable(rows[1..], key, id);
      var rest := Without(rows[1..], key, id);
      if key(rows[0]) != id {
        WithoutCons(rows[0], rest, key, id);
        if forall k :: 0 <= k < |rows| ==> key(rows[k]) != id {
          assert forall k :: 0 <= k < |rows[1..]| ==> key(rows[1..][k]) != id by {
            forall k | 0 <= k < |rows[1..]| ensures key(rows[1..][k]) != id {
              assert rows[1..][k] == rows[k + 1];
            }
          }
          assert rows == [rows[0]] + rows[1..];
        }
      } else {
        assert Without(rows, key, id) == rest;
      }
    }
  }

  // ------------------------------------------------------------ counters

  /** Rows with the given status. */
  function CountStatus(rs: seq<Session>, status: Status): (r: nat)
    ensures r <= |rs|
  {
    if |rs| == 0 then 0 else (if rs[0].status == status then 1 else 0) + CountStatus(rs[1..], status)
  }

  /** Each response has exactly one of the three statuses, so the counts add up to the total. */
  lemma {:induction false} StatusCountsSum(rs: seq<Session>)
    ensures CountStatus(rs, Completed) + CountStatus(rs, InProgress) + CountStatus(rs, Abandoned) == |rs|
  {
    if |rs| > 0 {
      StatusCountsSum(rs[1..]);
    }
  }

  /** Rows from the given source (the `source` column). */
  function CountSource(rs: seq<Session>, source: string): (r: nat)
    ensures r <= |rs|
  {
    if |rs| == 0 then 0 else CountSource(rs[..|rs| - 1], source) + (if rs[|rs| - 1].source == source then 1 else 0)
  }
}
