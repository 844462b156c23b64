/**
 * The response composable of `composables/useResponses.ts`: saving one
 * answer (update the stored row for the pair or insert one, then mirror it
 * locally), status changes with the completion time, the client's
 * get-or-create of a chat session, creation, deletion and the completion
 * rate over the loaded list.
 */
module UseResponses {
  import opened Wrappers
  import opened Records
  import Js
  import SessionManager

  /** `currentResponse`: a response row with the answers loaded for it. */
  datatype Current = Current(session: Session, values: seq<ValueRow>)

  /** The composable's state: the loaded list, the open response and the last error text. */
  datatype Responses = Responses(responses: seq<Session>, current: Option<Current>, error: Option<string>)

  // ------------------------------------------------------------ counters

  function CompletedCount(rs: seq<Session>): (r: nat)
    ensures r <= |rs|
    ensures r == |rs| <==> forall k :: 0 <= k < |rs| ==> rs[k].status == Completed
  {
    if |rs| == 0 then 0 else (if rs[0].status == Completed then 1 else 0) + CompletedCount(rs[1..])
  }

  /**
   * `completionRate`: 0 for an empty list, otherwise the rounded share of
   * completed responses as a percentage.
   */
  function CompletionRate(st: Responses): (r: int)
    ensures 0 <= r <= 100
    ensures |st.responses| == 0 ==> r == 0
    ensures |st.responses| > 0 && (forall k :: 0 <= k < |st.responses| ==> st.responses[k].status == Completed) ==> r == 100
    ensures CompletedCount(st.responses) == 0 ==> r == 0
  {
    var done := CompletedCount(st.responses);
    Js.PercentBounds(done, |st.responses|);
    Js.Percent(done, |st.responses|)
  }

  // ------------------------------------------------------------ addResponseValue

  predicate ForPair(v: ValueRow, responseId: nat, fieldId: string) {
    v.responseId == responseId && v.fieldId == fieldId
  }

  /** The stored answers of one (response, field) pair, in table order. */
  function ValuesFor(values: seq<ValueRow>, responseId: nat, fieldId: string): (r: seq<ValueRow>)
    ensures forall v :: v in r <==> v in values && ForPair(v, responseId, fieldId)
    ensures |r| <= 1 || exists i, j :: 0 <= i < j < |values| && ForPair(values[i], responseId, fieldId) && ForPair(values[j], responseId, fieldId)
  {
    if |values| == 0 then []
    else
      var rest := ValuesFor(values[1..], responseId, fieldId);
      assert forall v :: v in values <==> v == values[0] || v in values[1..];
      if ForPair(values[0], responseId, fieldId) then
        if |rest| > 0 then
          assert rest[0] in values[1..];
          var j :| 0 <= j < |values[1..]| && values[1..][j] == rest[0];
          assert ForPair(values[j + 1], responseId, fieldId);
          [values[0]] + rest
        else [values[0]] + rest
      else
        if |rest| >= 2 then
          var i, j :| 0 <= i < j < |values[1..]| && ForPair(values[1..][i], responseId, fieldId) && ForPair(values[1..][j], responseId, fieldId);
          assert ForPair(values[i + 1], responseId, fieldId) && ForPair(values[j + 1], responseId, fieldId);
          rest
        else rest
  }

  /**
   * The database side of `addResponseValue`: when the `.single()` lookup
   * finds exactly one row for the pair, that row (matched by its id) takes
   * the value; otherwise (none, or several, which `.single()` reports with
   * the same PGRST116 code as none) a new row is inserted.  Returns the
   * table and the written row.
   */
  function AddValueDb(values: seq<ValueRow>, responseId: nat, fieldId: string, value: string, now: int): (r: (seq<ValueRow>, ValueRow))
    ensures r.1.responseId == responseId && r.1.fieldId == fieldId && r.1.value == value
    ensures |ValuesFor(values, responseId, fieldId)| != 1 ==> r.0 == values + [r.1] && forall v :: v in values ==> v.id < r.1.id
  {
    var matched := ValuesFor(values, responseId, fieldId);
    if |matched| == 1 then
      assert matched[0] in matched;
      var row := matched[0].(value := value);
      (seq(|values|, k requires 0 <= k < |values| => if values[k].id == row.id then row else values[k]), row)
    else
      var row := ValueRow(NextValueId(values), responseId, fieldId, value, now);
      (values + [row], row)
  }

  /** Value-row ids are unique (the primary key). */
  predicate UniqueValueIds(values: seq<ValueRow>) {
    forall i, j :: 0 <= i < j < |values| ==> values[i].id != values[j].id
  }

  /** At most one stored answer per (response, field) pair. */
  predicate OnePerPair(values: seq<ValueRow>) {
    forall i, j :: 0 <= i < j < |values| ==> !(values[i].responseId == values[j].responseId && values[i].fieldId == values[j].fieldId)
  }

  /**
   * Saving an answer keeps ids unique and at most one answer per pair; the
   * pair's one stored answer afterwards is the written row, carrying the
   * new value; every answer of another pair stays.
   */
  lemma AddValueStoresAnswer(values: seq<ValueRow>, responseId: nat, fieldId: string, value: string, now: int)
    requires UniqueValueIds(values) && OnePerPair(values)
    ensures var (vs, row) := AddValueDb(values, responseId, fieldId, value, now);
      && UniqueValueIds(vs) && OnePerPair(vs)
      && row in vs && row.value == value
      && (forall v :: v in vs && ForPair(v, responseId, fieldId) ==> v == row)
      && forall v :: v in values && !ForPair(v, responseId, fieldId) ==> v in vs
  {
    if |ValuesFor(values, responseId, fieldId)| == 1 {
      AddValueUpdates(values, responseId, fieldId, value, now);
    } else {
      AddValueInserts(values, responseId, fieldId, value, now);
    }
  }

  /** The pair's one stored answer is rewritten in place. */
  lemma AddValueUpdates(values: seq<ValueRow>, responseId: nat, fieldId: string, value: string, now: int)
    requires UniqueValueIds(values) && OnePerPair(values)
    requires |ValuesFor(values, responseId, fieldId)| == 1
    ensures var (vs, row) := AddValueDb(values, responseId, fieldId, value, now);
      && UniqueValueIds(vs) && OnePerPair(vs)
      && row in vs && row.value == value
      && (forall v :: v in vs && ForPair(v, responseId, fieldId) ==> v == row)
      && forall v :: v in values && !ForPair(v, responseId, fieldId) ==> v in vs
  {
    var matched := ValuesFor(values, responseId, fieldId);
    var (vs, row) := AddValueDb(values, responseId, fieldId, value, now);
    assert matched[0] in matched;
    var i :| 0 <= i < |values| && values[i] == matched[0];
    assert forall k :: 0 <= k < |values| && k != i ==> values[k].id != row.id;
    assert vs == values[i := row];
    assert forall k :: 0 <= k < |values| && k != i ==> !ForPair(values[k], responseId, fieldId);
    assert vs[i] == row;
    assert row.id == values[i].id && ForPair(values[i], responseId, fieldId);
    forall a, b | 0 <= a < b < |vs| ensures vs[a].id != vs[b].id {
      assert vs[a].id == values[a].id && vs[b].id == values[b].id;
    }
    forall a, b | 0 <= a < b < |vs|
      ensures !(vs[a].responseId == vs[b].responseId && vs[a].fieldId == vs[b].fieldId)
    {
      assert vs[a].responseId == values[a].responseId && vs[a].fieldId == values[a].fieldId;
      assert vs[b].responseId == values[b].responseId && vs[b].fieldId == values[b].fieldId;
    }
    forall v | v in vs && ForPair(v, responseId, fieldId) ensures v == row {
      var k :| 0 <= k < |vs| && vs[k] == v;
    }
    forall v | v in values && !ForPair(v, responseId, fieldId) ensures v in vs {
      var k :| 0 <= k < |values| && values[k] == v;
      assert vs[k] == v;
    }
  }

  /** Without exactly one stored answer for the pair, a new row is appended. */
  lemma AddValueInserts(values: seq<ValueRow>, responseId: nat, fieldId: string, value: string, now: int)
    requires UniqueValueIds(values) && OnePerPair(values)
    requires |ValuesFor(values, responseId, fieldId)| != 1
    ensures var (vs, row) := AddValueDb(values, responseId, fieldId, value, now);
      && UniqueValueIds(vs) && OnePerPair(vs)
      && row in vs && row.value == value
      && (forall v :: v in vs && ForPair(v, responseId, fieldId) ==> v == row)
      && forall v :: v in values && !ForPair(v, responseId, fieldId) ==> v in vs
  {
    var matched := ValuesFor(values, responseId, fieldId);
    var (vs, row) := AddValueDb(values, responseId, fieldId, value, now);
    assert |matched| == 0;
    assert forall v :: v in values ==> !ForPair(v, responseId, fieldId);
    assert vs == values + [row];
    assert vs[|values|] == row;
    forall v | v in vs && ForPair(v, responseId, fieldId) ensures v == row {
      var k :| 0 <= k < |vs| && vs[k] == v;
    }
    assert forall k :: 0 <= k < |values| ==> vs[k] == values[k];
    forall i, j | 0 <= i < j < |vs| ensures vs[i].id != vs[j].id {
      if j == |values| {
        assert values[i] in values;
      }
    }
    forall i, j | 0 <= i < j < |vs|
      ensures !(vs[i].responseId == vs[j].responseId && vs[i].fieldId == vs[j].fieldId)
    {
      if j == |values| {
        assert values[i] in values;
      }
    }
  }

  /** Position of the first local answer for the field (`findIndex`). */
  function IndexOfAnswer(values: seq<ValueRow>, fieldId: string): (r: Option<nat>)
    ensures r.Some? ==> r.value < |values| && values[r.value].fieldId == fieldId
    ensures r.None? ==> forall k :: 0 <= k < |values| ==> values[k].fieldId != fieldId
  {
    if |values| == 0 then None
    else if values[0].fieldId == fieldId then Some(0)
    else
      match IndexOfAnswer(values[1..], fieldId)
      case None => None
      case Some(k) => Some(k + 1)
  }

  /** The local side: replace the answer for the same field, or append. */
  function UpsertLocal(values: seq<ValueRow>, row: ValueRow): (r: seq<ValueRow>)
    ensures |r| == |values| || r == values + [row]
  {
    match IndexOfAnswer(values, row.fieldId)
    case Some(k) => values[k := row]
    case None => values + [row]
  }

  /** At most one local answer per field. */
  predicate OnePerField(values: seq<ValueRow>) {
    forall i, j :: 0 <= i < j < |values| ==> values[i].fieldId != values[j].fieldId
  }

  /**
   * The local upsert keeps at most one answer per field, the field's answer
   * becomes the written row, and answers to other fields stay where they were.
   */
  lemma UpsertLocalKeepsOne(values: seq<ValueRow>, row: ValueRow)
    requires OnePerField(values)
    ensures var r := UpsertLocal(values, row);
      && OnePerField(r)
      && IndexOfAnswer(r, row.fieldId).Some? && r[IndexOfAnswer(r, row.fieldId).value] == row
      && forall k :: 0 <= k < |values| && values[k].fieldId != row.fieldId ==> r[k] == values[k]
  {
    var r := UpsertLocal(values, row);
    match IndexOfAnswer(values, row.fieldId)
    case Some(k) =>
      assert r[k] == row;
      assert forall m :: 0 <= m < |r| && m != k ==> r[m].fieldId != row.fieldId;
    case None =>
      assert r[|values|] == row;
  }

  /**
   * `addResponseValue`: the database write, then the local mirror when the
   * open response is the one answered; the error cleared on entry stays
   * cleared.
   */
  function AddResponseValue(values: seq<ValueRow>, st: Responses, responseId: nat, fieldId: string, value: string, now: int): (r: (seq<ValueRow>, Responses))
    ensures r.1.responses == st.responses && r.1.error.None?
    ensures st.current.Some? && st.current.value.session.id == responseId ==>
      r.1.current == Some(st.current.value.(values := UpsertLocal(st.current.value.values, AddValueDb(values, responseId, fieldId, value, now).1)))
    ensures !(st.current.Some? && st.current.value.session.id == responseId) ==> r.1 == st.(error := None)
  {
    var (vs, row) := AddValueDb(values, responseId, fieldId, value, now);
    if st.current.Some? && st.current.value.session.id == responseId then
      (vs, st.(current := Some(st.current.value.(values := UpsertLocal(st.current.value.values, row))), error := None))
    else (vs, st.(error := None))
  }

  // ------------------------------------------------------------ updateResponseStatus

  /**
   * The update `updateResponseStatus` sends for a row: the status and
   * activity stamps, plus `completed_at` and the whole seconds since the
   * open response's `created_at` when completing with a response open.
   */
  function StatusUpdate(row: Session, st: Responses, status: Status, now: int): (r: Session)
    ensures r.id == row.id && r.status == status && r.lastActivityAt == now
  {
    var stamped := row.(status := status, updatedAt := now, lastActivityAt := now);
    if status == Completed && st.current.Some? then
      stamped.(completionTime := Some(Js.FloorDiv(now - st.current.value.session.createdAt, 1000)), completedAt := Some(now))
    else stamped
  }

  /** The rows with the given id. */
  function SessionsWithId(rs: seq<Session>, id: nat): (r: seq<Session>)
    ensures forall s :: s in r <==> s in rs && s.id == id
  {
    if |rs| == 0 then []
    else
      var rest := SessionsWithId(rs[1..], id);
      assert forall s :: s in rs <==> s == rs[0] || s in rs[1..];
      if rs[0].id == id then [rs[0]] + rest else rest
  }

  /** Position `k` holds the first entry of the list with the id. */
  predicate FirstWithId(rs: seq<Session>, k: int, id: nat) {
    0 <= k < |rs| && rs[k].id == id && forall j :: 0 <= j < k ==> rs[j].id != id
  }

  /** First position of the id in the local list (`findIndex`). */
  function IndexOfSession(rs: seq<Session>, id: nat): (r: Option<nat>)
    ensures r.Some? ==> FirstWithId(rs, r.value, id)
    ensures r.None? ==> forall k :: 0 <= k < |rs| ==> rs[k].id != id
  {
    if |rs| == 0 then None
    else if rs[0].id == id then Some(0)
    else
      match IndexOfSession(rs[1..], id)
      case None => None
      case Some(k) => Some(k + 1)
  }

  /** `responses[findIndex(id)] = data` when listed. */
  function ReplaceListed(rs: seq<Session>, data: Session): (r: seq<Session>)
    ensures |r| == |rs|
    ensures forall k :: 0 <= k < |rs| ==> r[k] == (if FirstWithId(rs, k, data.id) then data else rs[k])
  {
    match IndexOfSession(rs, data.id)
    case None => rs
    case Some(k) => rs[k := data]
  }

  /**
   * `updateResponseStatus`: the update on every row with the id, read back
   * with `.single()` (an error unless exactly one row matched), then copied
   * into the list and merged into the open response when it is that one;
   * a success leaves the error the action cleared on entry cleared.
   */
  function UpdateResponseStatus(db: seq<Session>, st: Responses, responseId: nat, status: Status, now: int): (r: (seq<Session>, Responses, Result<Session>))
    ensures |r.0| == |db|
    ensures r.2.Err? <==> |SessionsWithId(db, responseId)| != 1
    ensures r.2.Err? ==> r.0 == db && r.1.error == Some(r.2.error)
    ensures r.2.Ok? ==> r.2.value == StatusUpdate(SessionsWithId(db, responseId)[0], st, status, now)
    ensures r.2.Ok? ==> r.1.error.None?
    ensures r.2.Err? ==> r.1.responses == st.responses && r.1.current == st.current
    ensures r.2.Ok? ==> forall k :: 0 <= k < |db| ==> r.0[k] == (if db[k].id == responseId then r.2.value else db[k])
    ensures r.2.Ok? ==> r.1.responses == ReplaceListed(st.responses, r.2.value)
    ensures r.2.Ok? ==> (r.1.current ==
      if st.current.Some? && st.current.value.session.id == responseId then Some(st.current.value.(session := r.2.value))
      else st.current)
  {
    var matched := SessionsWithId(db, responseId);
    if |matched| != 1 then
      var e := NotSingleError;
      (db, st.(error := Some(e)), Err(e))
    else
      var data := StatusUpdate(matched[0], st, status, now);
      var rows := seq(|db|, k requires 0 <= k < |db| => if db[k].id == responseId then data else db[k]);
      var current :=
        if st.current.Some? && st.current.value.session.id == responseId then Some(st.current.value.(session := data))
        else st.current;
      (rows, Responses(ReplaceListed(st.responses, data), current, None), Ok(data))
  }

  /**
   * Completing the open response records `completed_at = now` and the
   * elapsed whole seconds since its creation; any other status leaves the
   * stored completion fields as they were.
   */
  lemma StatusCompletionTime(db: seq<Session>, st: Responses, responseId: nat, status: Status, now: int)
    requires UpdateResponseStatus(db, st, responseId, status, now).2.Ok?
    ensures var data := UpdateResponseStatus(db, st, responseId, status, now).2.value;
      var before := SessionsWithId(db, responseId)[0];
      && data.id == responseId && data.status == status
      && (status == Completed && st.current.Some? ==>
            && data.completedAt == Some(now)
            && data.completionTime.Some?
            && 1000 * data.completionTime.value <= now - st.current.value.session.createdAt < 1000 * (data.completionTime.value + 1))
      && (status != Completed ==> data.completedAt == before.completedAt && data.completionTime == before.completionTime)
      && data.formId == before.formId && data.phone == before.phone && data.createdAt == before.createdAt
  {
    var before := SessionsWithId(db, responseId)[0];
    assert before in SessionsWithId(db, responseId);
  }

  // ------------------------------------------------------------ sessions

  /**
   * The client's `getOrCreateSession`: the server lookup without a contact
   * name, after which the session is opened with its stored answers (none
   * for a new one) and the error cleared on entry stays cleared.
   */
  function GetOrCreateSession(store: Store, st: Responses, formId: string, phone: string, now: int): (r: (Store, Responses, SessionManager.SessionLookup))
    ensures r.1.responses == st.responses && r.1.error.None?
    ensures r.1.current == Some(Current(r.2.session, if r.2.isNew then [] else ValuesOf(store.values, r.2.session.id)))
    ensures r.2.isNew ==> r.2.session.status == InProgress && r.2.session.version == 1 && r.2.session.source == "whatsapp"
  {
    var (store', found) := SessionManager.GetOrCreateSession(store, formId, phone, None, now);
    var values := if found.isNew then [] else ValuesOf(store.values, found.session.id);
    (store', st.(current := Some(Current(found.session, values)), error := None), found)
  }

  /**
   * Asking twice finds the same session the second time: the second call
   * reports it as existing and writes nothing.
   */
  lemma GetOrCreateTwice(store: Store, st: Responses, formId: string, phone: string, now: int, later: int)
    ensures var (s1, st1, first) := GetOrCreateSession(store, st, formId, phone, now);
      var (s2, _, second) := GetOrCreateSession(s1, st1, formId, phone, later);
      && !second.isNew && s2 == s1
      && (first.isNew ==> second.session == first.session)
  {
    var (s1, st1, first) := GetOrCreateSession(store, st, formId, phone, now);
    assert first.session in s1.responses;
    if first.isNew {
      var (s2, _, second) := GetOrCreateSession(s1, st1, formId, phone, later);
      assert forall s :: s in s1.responses && s.formId == formId && s.phone == phone && s.status == InProgress ==> s == first.session by {
        forall s | s in s1.responses && s.formId == formId && s.phone == phone && s.status == InProgress
          ensures s == first.session
        {
          if s in store.responses {
            assert false;
          }
        }
      }
      assert second.session in s1.responses;
    }
  }

  /**
   * `createResponse`: a new in-progress row at version 1 from the given
   * details, opened with no answers, and no error.
   */
  function CreateResponse(store: Store, st: Responses, formId: string, phone: string, name: Option<string>, source: string, now: int): (r: (Store, Responses))
    ensures |r.0.responses| == |store.responses| + 1 && r.0.responses[..|store.responses|] == store.responses
    ensures var s := r.0.responses[|store.responses|];
      && s.status == InProgress && s.version == 1 && s.formId == formId && s.phone == phone && s.source == source
      && (forall old_ :: old_ in store.responses ==> old_.id < s.id)
      && r.1.current == Some(Current(s, []))
    ensures r.1.responses == st.responses && r.1.error.None?
  {
    var s := Session(NextSessionId(store.responses), formId, phone, name, InProgress, source, 1, None, now, now, now, None, None);
    assert (store.responses + [s])[..|store.responses|] == store.responses;
    (store.(responses := store.responses + [s]), st.(current := Some(Current(s, [])), error := None))
  }

  /**
   * `deleteResponse`: every row and entry with the id leaves the table and
   * the list, the others keeping their order; the open response closes if
   * it was that one, and the error stays cleared.
   */
  function DeleteResponse(store: Store, st: Responses, responseId: nat): (r: (Store, Responses))
    ensures r.0.responses == Without(store.responses, IdOfSession, responseId)
    ensures r.1.responses == Without(st.responses, IdOfSession, responseId)
    ensures forall s :: s in r.0.responses <==> s in store.responses && s.id != responseId
    ensures forall s :: s in r.1.responses <==> s in st.responses && s.id != responseId
    ensures r.1.error.None?
    ensures st.current.Some? && st.current.value.session.id == responseId ==> r.1.current.None?
    ensures !(st.current.Some? && st.current.value.session.id == responseId) ==> r.1.current == st.current
  {
    var current := if st.current.Some? && st.current.value.session.id == responseId then None else st.current;
    WithoutCounts(store.responses, IdOfSession, responseId);
    WithoutCounts(st.responses, IdOfSession, responseId);
    (store.(responses := Without(store.responses, IdOfSession, responseId)), Responses(Without(st.responses, IdOfSession, responseId), current, None))
  }

  /** Deleting never raises the completed count, and drops no more completed entries than entries. */
  lemma {:induction false} WithoutSessionCount(rs: seq<Session>, id: nat)
    ensures CompletedCount(Without(rs, IdOfSession, id)) <= CompletedCount(rs)
    ensures |rs| - |Without(rs, IdOfSession, id)| >= CompletedCount(rs) - CompletedCount(Without(rs, IdOfSession, id))
  {
    if |rs| > 0 {
      WithoutSessionCount(rs[1..], id);
      var rest := Without(rs[1..], IdOfSession, id);
      if rs[0].id != id {
        assert Without(rs, IdOfSession, id) == [rs[0]] + rest;
        assert ([rs[0]] + rest)[1..] == rest;
      } else {
        assert Without(rs, IdOfSession, id) == rest;
      }
    }
  }
}
