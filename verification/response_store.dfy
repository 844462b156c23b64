/**
 * The client-side response store of `stores/responses.ts`: the loaded
 * list of responses, the open response with its answers, and the counters
 * the dashboard derives from the list.  Loading from the database is left
 * out; the store is a value and each action returns the next one.
 */
module ResponseStore {
  import opened Wrappers
  import opened Records
  import Js
  import UseResponses

  datatype State = State(
    responses: seq<Session>,
    current: Option<UseResponses.Current>,
    currentFormId: Option<string>,
    currentStep: Option<string>,
    isLoading: bool,
    error: Option<string>)

  /** The state the store is created in. */
  function Initial(): State {
    State([], None, None, None, false, None)
  }

  // ------------------------------------------------------------ completion rate

  /**
   * `completionRate`: 0 for an empty list, otherwise the share of completed
   * responses as a percentage rounded half up.
   */
  function CompletionRate(rs: seq<Session>): (r: int)
    ensures 0 <= r <= 100
    ensures |rs| == 0 ==> r == 0
    ensures |rs| > 0 ==> 2 * |rs| * r <= 200 * CountStatus(rs, Completed) + |rs| < 2 * |rs| * (r + 1)
  {
    Js.PercentBounds(CountStatus(rs, Completed), |rs|);
    Js.Percent(CountStatus(rs, Completed), |rs|)
  }

  /** The composable's completed counter counts the same rows as the store's. */
  lemma {:induction false} CompletedCountsAgree(rs: seq<Session>)
    ensures UseResponses.CompletedCount(rs) == CountStatus(rs, Completed)
  {
    if |rs| > 0 {
      CompletedCountsAgree(rs[1..]);
    }
  }

  /**
   * The store and the `useResponses` composable report the same completion
   * rate for the same list, which is 100 when every listed response is
   * completed.
   */
  lemma CompletionRateAgrees(st: UseResponses.Responses)
    ensures CompletionRate(st.responses) == UseResponses.CompletionRate(st)
    ensures |st.responses| > 0 && (forall k :: 0 <= k < |st.responses| ==> st.responses[k].status == Completed) ==>
      CompletionRate(st.responses) == 100
  {
    CompletedCountsAgree(st.responses);
    Js.PercentBounds(CountStatus(st.responses, Completed), |st.responses|);
  }

  // ------------------------------------------------------------ average completion time

  /** A truthy `completion_time_seconds`, whatever the status. */
  predicate HasTime(s: Session) {
    s.completionTime.Some? && s.completionTime.value != 0
  }

  function TimedCount(rs: seq<Session>): (r: nat)
    ensures r <= |rs|
  {
    if |rs| == 0 then 0 else TimedCount(rs[..|rs| - 1]) + (if HasTime(rs[|rs| - 1]) then 1 else 0)
  }

  function TimedTotal(rs: seq<Session>): int {
    if |rs| == 0 then 0 else TimedTotal(rs[..|rs| - 1]) + (if HasTime(rs[|rs| - 1]) then rs[|rs| - 1].completionTime.value else 0)
  }

  /**
   * `averageCompletionTime`: the mean of the truthy completion times
   * rounded half up, or 0 when there are none.
   */
  function AverageTime(rs: seq<Session>): (r: int)
    ensures TimedCount(rs) == 0 ==> r == 0
    ensures TimedCount(rs) > 0 ==>
      2 * TimedCount(rs) * r <= 2 * TimedTotal(rs) + TimedCount(rs) < 2 * TimedCount(rs) * (r + 1)
  {
    var n := TimedCount(rs);
    if n == 0 then 0 else Js.RoundRatio(TimedTotal(rs), n)
  }

  /** Responses without a truthy time, wherever they sit, change neither the count nor the total. */
  lemma {:induction false} UntimedIgnored(a: seq<Session>, s: Session, b: seq<Session>)
    requires !HasTime(s)
    ensures TimedCount(a + [s] + b) == TimedCount(a + b)
    ensures TimedTotal(a + [s] + b) == TimedTotal(a + b)
    ensures AverageTime(a + [s] + b) == AverageTime(a + b)
  {
    if |b| == 0 {
      assert a + [s] + b == a + [s] && (a + [s])[..|a|] == a && a + b == a;
    } else {
      var b' := b[..|b| - 1];
      UntimedIgnored(a, s, b');
      assert (a + [s] + b)[..|a + [s] + b| - 1] == a + [s] + b';
      assert (a + b)[..|a + b| - 1] == a + b';
    }
  }

  lemma {:induction false} TimedTotalBounds(rs: seq<Session>, lo: int, hi: int)
    requires forall s :: s in rs && HasTime(s) ==> lo <= s.completionTime.value <= hi
    ensures TimedCount(rs) * lo <= TimedTotal(rs) <= TimedCount(rs) * hi
  {
    if |rs| > 0 {
      var init, last := rs[..|rs| - 1], rs[|rs| - 1];
      assert forall s :: s in init ==> s in rs;
      TimedTotalBounds(init, lo, hi);
      var n := TimedCount(init);
      if HasTime(last) {
        assert last in rs;
        assert TimedCount(rs) == n + 1 && TimedTotal(rs) == TimedTotal(init) + last.completionTime.value;
        OneMore(n, lo);
        OneMore(n, hi);
      } else {
        assert TimedCount(rs) == n && TimedTotal(rs) == TimedTotal(init);
      }
    }
  }

  lemma OneMore(n: int, x: int)
    ensures (n + 1) * x == n * x + x
  {
  }

  /** The average lies between the shortest and the longest truthy time. */
  lemma AverageWithinRange(rs: seq<Session>, lo: int, hi: int)
    requires forall s :: s in rs && HasTime(s) ==> lo <= s.completionTime.value <= hi
    requires TimedCount(rs) > 0
    ensures lo <= AverageTime(rs) <= hi
  {
    TimedTotalBounds(rs, lo, hi);
    Js.RoundedMeanWithin(TimedTotal(rs), TimedCount(rs), lo, hi);
  }

  // ------------------------------------------------------------ responses by source

  /** The `{ whatsapp, web, api }` counter object. */
  datatype SourceCounts = SourceCounts(whatsapp: nat, web: nat, api: nat)

  /** One step of the `forEach`: bump the source's counter when it has one. */
  function Tally(c: SourceCounts, source: string): SourceCounts {
    if source == "whatsapp" then c.(whatsapp := c.whatsapp + 1)
    else if source == "web" then c.(web := c.web + 1)
    else if source == "api" then c.(api := c.api + 1)
    else c
  }

  /** A source with a counter of its own. */
  predicate Counted(source: string) {
    source == "whatsapp" || source == "web" || source == "api"
  }

  /** `responsesBySource`: the counters after visiting the list in order. */
  function ResponsesBySource(rs: seq<Session>): (r: SourceCounts)
    ensures r.whatsapp == CountSource(rs, "whatsapp")
    ensures r.web == CountSource(rs, "web")
    ensures r.api == CountSource(rs, "api")
  {
    if |rs| == 0 then SourceCounts(0, 0, 0) else Tally(ResponsesBySource(rs[..|rs| - 1]), rs[|rs| - 1].source)
  }

  /** Rows whose source has a counter. */
  function CountedRows(rs: seq<Session>): (r: nat)
    ensures r <= |rs|
  {
    if |rs| == 0 then 0 else CountedRows(rs[..|rs| - 1]) + (if Counted(rs[|rs| - 1].source) then 1 else 0)
  }

  /**
   * The three counters add up to the rows from a counted source, so to at
   * most the total, and to exactly the total when every source is one of
   * the three.
   */
  lemma {:induction false} BySourceWithinTotal(rs: seq<Session>)
    ensures var c := ResponsesBySource(rs); c.whatsapp + c.web + c.api == CountedRows(rs) <= |rs|
    ensures (forall k :: 0 <= k < |rs| ==> Counted(rs[k].source)) <==> CountedRows(rs) == |rs|
  {
    if |rs| > 0 {
      var init := rs[..|rs| - 1];
      BySourceWithinTotal(init);
      assert forall k :: 0 <= k < |init| ==> init[k] == rs[k];
      if CountedRows(rs) == |rs| {
        assert CountedRows(init) == |init| && Counted(rs[|rs| - 1].source);
      }
    }
  }

  // ------------------------------------------------------------ actions

  /**
   * `updateResponse`: the first listed entry with the id is replaced, and
   * the open response takes the new columns while keeping its answers.
   */
  function UpdateResponse(st: State, response: Session): (r: State)
    ensures |r.responses| == |st.responses|
    ensures forall k :: 0 <= k < |st.responses| ==>
      r.responses[k] == (if UseResponses.FirstWithId(st.responses, k, response.id) then response else st.responses[k])
    ensures st.current.Some? && st.current.value.session.id == response.id ==>
      r.current == Some(UseResponses.Current(response, st.current.value.values))
    ensures !(st.current.Some? && st.current.value.session.id == response.id) ==> r.current == st.current
    ensures r.currentFormId == st.currentFormId && r.currentStep == st.currentStep
    ensures r.isLoading == st.isLoading && r.error == st.error
  {
    var current :=
      if st.current.Some? && st.current.value.session.id == response.id then Some(st.current.value.(session := response))
      else st.current;
    st.(responses := UseResponses.ReplaceListed(st.responses, response), current := current)
  }

  /** Applying the same update twice is the same as applying it once. */
  lemma UpdateResponseIdempotent(st: State, response: Session)
    ensures UpdateResponse(UpdateResponse(st, response), response) == UpdateResponse(st, response)
  {
  }

  /** `reset`: every field back to the value the store was created with. */
  function Reset(st: State): (r: State)
    ensures r.responses == [] && r.current.None? && r.currentFormId.None? && r.currentStep.None?
    ensures !r.isLoading && r.error.None?
  {
    Initial()
  }

  /**
   * After a reset nothing of the earlier state survives: the counters read
   * zero, and an update of any response changes nothing because the list
   * is empty and no response is open.
   */
  lemma ResetForgets(st: State, other: State, response: Session)
    ensures Reset(st) == Reset(other) == Initial()
    ensures CompletionRate(Reset(st).responses) == 0 && AverageTime(Reset(st).responses) == 0
    ensures ResponsesBySource(Reset(st).responses) == SourceCounts(0, 0, 0)
    ensures UpdateResponse(Reset(st), response) == Reset(st)
  {
  }
}
