/**
 * The queue worker of `server/utils/queueWorker.ts`: one poll step over the
 * incoming queue and the dead-letter queue, the retry policy, the start/stop
 * lifecycle flag and the dead-letter listing.
 *
 * A Redis list is a `seq` whose head is index 0: `lpush` prepends and `rpop`
 * takes the last element.  An entry is either a record that `JSON.parse`
 * reads back or text it rejects.  The engine is a parameter of the step: it
 * threads an application state of any type and either succeeds or throws.
 */
module QueueWorker {
  import opened Wrappers
  import opened Payload

  /** `MAX_RETRIES`. */
  const MaxRetries: int := 3

  /** A queue record: the extracted message plus the bookkeeping fields the worker and the webhook add. */
  datatype Queued = Queued(
    message: Inbound,
    queuedAt: int,
    status: string,
    retryCount: Option<int>,
    retryAt: Option<int>,
    failedAt: Option<int>,
    error: Option<string>)

  /** A list element as `JSON.parse` sees it. */
  datatype Entry = Record(record: Queued) | Malformed(raw: string)

  /** What the engine threw: an `Error` with a message, or any other value. */
  datatype Thrown = ErrorThrown(message: string) | OtherThrown

  /** The Redis connection, if any, with the two lists it holds. */
  datatype Queues = Queues(redis: bool, queue: seq<Entry>, deadLetters: seq<Entry>)

  /** `message.retry_count || 0`. */
  function RetryCount(q: Queued): int {
    match q.retryCount
    case None => 0
    case Some(n) => n
  }

  /** The text stored as the dead letter's `error`. */
  function ErrorText(t: Thrown): string {
    match t
    case ErrorThrown(message) => message
    case OtherThrown => "Unknown error"
  }

  /** The copy pushed back for another attempt. */
  function RetryCopy(q: Queued, now: int): Queued {
    q.(retryCount := Some(RetryCount(q) + 1), retryAt := Some(now))
  }

  /** The copy moved to the dead-letter queue. */
  function DeadLetter(q: Queued, t: Thrown, now: int): Queued {
    q.(failedAt := Some(now), error := Some(ErrorText(t)))
  }

  /**
   * `processQueuedMessage` after the engine has run: nothing on success; on
   * failure the record is lost without Redis, requeued at the head below
   * `MAX_RETRIES`, and dead-lettered otherwise.
   */
  function AfterAttempt(qs: Queues, q: Queued, outcome: Option<Thrown>, now: int): (r: Queues)
    ensures outcome.None? || !qs.redis ==> r == qs
    ensures outcome.Some? && qs.redis && RetryCount(q) < MaxRetries ==>
      r == qs.(queue := [Record(RetryCopy(q, now))] + qs.queue)
    ensures outcome.Some? && qs.redis && RetryCount(q) >= MaxRetries ==>
      r == qs.(deadLetters := [Record(DeadLetter(q, outcome.value, now))] + qs.deadLetters)
  {
    if outcome.None? || !qs.redis then qs
    else if RetryCount(q) < MaxRetries then qs.(queue := [Record(RetryCopy(q, now))] + qs.queue)
    else qs.(deadLetters := [Record(DeadLetter(q, outcome.value, now))] + qs.deadLetters)
  }

  /**
   * `pollQueue`: without Redis or with an empty queue nothing happens;
   * otherwise the tail element is popped, dropped if it does not parse, and
   * otherwise handed to the engine.
   */
  function PollQueue<S>(qs: Queues, app: S, engine: (S, Queued) -> (S, Option<Thrown>), now: int): (r: (Queues, S))
  {
    if !qs.redis || |qs.queue| == 0 then (qs, app)
    else
      var popped := qs.queue[|qs.queue| - 1];
      var rest := qs.(queue := qs.queue[..|qs.queue| - 1]);
      match popped
      case Malformed(_) => (rest, app)
      case Record(q) =>
        var (app', outcome) := engine(app, q);
        (AfterAttempt(rest, q, outcome, now), app')
  }

  /** The count of elements across both lists. */
  function Held(qs: Queues): nat {
    |qs.queue| + |qs.deadLetters|
  }

  /**
   * One poll: the tail is the element taken; the rest of the queue keeps its
   * order, with at most one record (the retry copy) added at the head; the
   * dead-letter queue gains at most one record at its head; and a record is
   * never both requeued and dead-lettered.
   */
  lemma PollShape<S>(qs: Queues, app: S, engine: (S, Queued) -> (S, Option<Thrown>), now: int)
    requires qs.redis && |qs.queue| > 0
    ensures var (r, _) := PollQueue(qs, app, engine, now);
      var rest := qs.queue[..|qs.queue| - 1];
      && r.redis
      && (r.queue == rest || (|r.queue| == |rest| + 1 && r.queue[1..] == rest))
      && (r.deadLetters == qs.deadLetters || (|r.deadLetters| == |qs.deadLetters| + 1 && r.deadLetters[1..] == qs.deadLetters))
      && !(r.queue != rest && r.deadLetters != qs.deadLetters)
      && Held(r) <= Held(qs)
  {
    var (r, _) := PollQueue(qs, app, engine, now);
    var rest := qs.queue[..|qs.queue| - 1];
    if r.queue != rest {
      assert r.queue == [r.queue[0]] + rest;
    }
    if r.deadLetters != qs.deadLetters {
      assert r.deadLetters == [r.deadLetters[0]] + qs.deadLetters;
    }
  }

  /** Without Redis, or with an empty queue, a poll changes nothing. */
  lemma IdlePoll<S>(qs: Queues, app: S, engine: (S, Queued) -> (S, Option<Thrown>), now: int)
    requires !qs.redis || |qs.queue| == 0
    ensures PollQueue(qs, app, engine, now) == (qs, app)
  {
  }

  /**
   * The tail record's fate: processed, it is in neither list afterwards;
   * failed below `MAX_RETRIES`, its retry copy (count + 1) heads the queue;
   * failed at or above it, the copy with `failed_at` and `error` heads the
   * dead-letter queue; a malformed entry is simply gone.
   */
  lemma PollFate<S>(qs: Queues, app: S, engine: (S, Queued) -> (S, Option<Thrown>), now: int)
    requires qs.redis && |qs.queue| > 0
    ensures var (r, app') := PollQueue(qs, app, engine, now);
      var rest := qs.queue[..|qs.queue| - 1];
      match qs.queue[|qs.queue| - 1]
      case Malformed(_) => r == qs.(queue := rest) && app' == app
      case Record(q) =>
        var (next, outcome) := engine(app, q);
        && app' == next
        && (outcome.None? ==> r == qs.(queue := rest))
        && (outcome.Some? && RetryCount(q) < MaxRetries ==> (r.deadLetters == qs.deadLetters
              && r.queue == [Record(q.(retryCount := Some(RetryCount(q) + 1), retryAt := Some(now)))] + rest))
        && (outcome.Some? && RetryCount(q) >= MaxRetries ==> (r.queue == rest
              && r.deadLetters == [Record(q.(failedAt := Some(now), error := Some(ErrorText(outcome.value))))] + qs.deadLetters))
  {
  }

  /** A record's failures lose it when the connection is gone. */
  lemma FailureWithoutRedisIsLost(qs: Queues, q: Queued, t: Thrown, now: int)
    requires !qs.redis
    ensures AfterAttempt(qs, q, Some(t), now) == qs
  {
  }

  // -------------------------------------------------------- attempts bound

  /** An engine that throws on every record. */
  ghost predicate AlwaysFails<S(!new)>(engine: (S, Queued) -> (S, Option<Thrown>)) {
    forall s, q :: engine(s, q).1.Some?
  }

  /** `n` consecutive polls at one instant. */
  function Polls<S>(qs: Queues, app: S, engine: (S, Queued) -> (S, Option<Thrown>), now: int, n: nat): (Queues, S)
    decreases n
  {
    if n == 0 then (qs, app)
    else
      var (qs', app') := PollQueue(qs, app, engine, now);
      Polls(qs', app', engine, now, n - 1)
  }

  /**
   * A record alone in the queue whose engine always fails is attempted
   * exactly `MAX_RETRIES + 1 - retry_count` more times: after each of the
   * first attempts it is back in the queue with its count one higher, and
   * after the last the queue is empty and the dead-letter queue has gained
   * exactly one record.  A fresh record is thus attempted at most four times.
   */
  lemma {:induction false} FailingRecordAttempts<S(!new)>(qs: Queues, app: S, engine: (S, Queued) -> (S, Option<Thrown>), now: int, q: Queued)
    requires AlwaysFails(engine)
    requires qs.redis && qs.queue == [Record(q)] && 0 <= RetryCount(q) <= MaxRetries
    decreases MaxRetries - RetryCount(q)
    ensures var k := MaxRetries - RetryCount(q);
      var (r, _) := Polls(qs, app, engine, now, k);
      |r.queue| == 1 && r.queue[0].Record? && RetryCount(r.queue[0].record) == MaxRetries && r.deadLetters == qs.deadLetters
    ensures var (r, _) := Polls(qs, app, engine, now, MaxRetries + 1 - RetryCount(q));
      r.queue == [] && |r.deadLetters| == |qs.deadLetters| + 1 && r.deadLetters[1..] == qs.deadLetters
  {
    var (next, outcome) := engine(app, q);
    assert outcome.Some?;
    var (r1, app1) := PollQueue(qs, app, engine, now);
    assert qs.queue[..0] == [];
    if RetryCount(q) < MaxRetries {
      var q' := RetryCopy(q, now);
      assert r1 == qs.(queue := [Record(q')]);
      FailingRecordAttempts(r1, app1, engine, now, q');
      assert Polls(qs, app, engine, now, MaxRetries - RetryCount(q)) == Polls(r1, app1, engine, now, MaxRetries - RetryCount(q'));
      assert Polls(qs, app, engine, now, MaxRetries + 1 - RetryCount(q)) == Polls(r1, app1, engine, now, MaxRetries + 1 - RetryCount(q'));
    } else {
      assert r1 == qs.(queue := [], deadLetters := [Record(DeadLetter(q, outcome.value, now))] + qs.deadLetters);
      assert Polls(r1, app1, engine, now, 0) == (r1, app1);
    }
  }

  // ------------------------------------------------------------- lifecycle

  /** The module's worker flags: `isWorkerRunning`, the Redis client and the poll timer. */
  datatype Lifecycle = Lifecycle(running: bool, redis: bool, timer: bool)

  /**
   * `startQueueWorker`: a no-op when already running or in development;
   * otherwise connect (reusing an existing client) and, only if a client
   * exists, set the flag and the timer.  `connects` says whether creating a
   * client succeeds.
   */
  function StartWorker(l: Lifecycle, development: bool, connects: bool): (r: Lifecycle)
    ensures l.running || development ==> r == l
    ensures !l.running && r.running ==> r.redis && r.timer
    ensures !l.running && !development && !l.redis && !connects ==> r == l
    ensures !l.running && !development && (l.redis || connects) ==> r.running && r.redis && r.timer
  {
    if l.running || development then l
    else
      var redis := l.redis || connects;
      if !redis then l
      else Lifecycle(true, true, true)
  }

  /** `stopQueueWorker`: a no-op when not running; otherwise clear the flag, the timer and the client. */
  function StopWorker(l: Lifecycle): (r: Lifecycle)
    ensures !l.running ==> r == l
    ensures l.running ==> !r.running && !r.timer && !r.redis
  {
    if !l.running then l else Lifecycle(false, false, false)
  }

  /** Starting twice is starting once, and a stop after a start leaves the worker stopped and disconnected. */
  lemma StartStop(l: Lifecycle, development: bool, connects: bool)
    ensures StartWorker(StartWorker(l, development, connects), development, connects) == StartWorker(l, development, connects)
    ensures !l.running ==> !StopWorker(StartWorker(l, development, connects)).running
    ensures !l.running && !development && (l.redis || connects) ==> StopWorker(StartWorker(l, development, connects)) == Lifecycle(false, false, false)
  {
  }

  // ------------------------------------------------------ dead-letter list

  /**
   * Redis `LRANGE key start stop`: inclusive indices, negative ones counting
   * from the end, clamped to the list.
   */
  function LRange<T>(xs: seq<T>, start: int, stop: int): (r: seq<T>)
    ensures |r| <= |xs|
  {
    var n := |xs|;
    var s := if start < 0 then (if n + start < 0 then 0 else n + start) else start;
    var e := if stop < 0 then n + stop else stop;
    var e' := if e >= n then n - 1 else e;
    if s >= n || s > e' then [] else xs[s..e' + 1]
  }

  /** `getDeadLetterMessages` result: the parsed records, or the failure text. */
  function ParseAll(entries: seq<Entry>): (r: Option<seq<Queued>>)
    ensures r.Some? ==> |r.value| == |entries| && forall i :: 0 <= i < |entries| ==> entries[i] == Record(r.value[i])
    ensures r.None? ==> exists i :: 0 <= i < |entries| && entries[i].Malformed?
  {
    if |entries| == 0 then Some([])
    else
      match entries[0]
      case Malformed(_) => None
      case Record(q) =>
        match ParseAll(entries[1..])
        case None => None
        case Some(rest) => Some([q] + rest)
  }

  /** `getDeadLetterMessages(limit)` as written: `LRANGE 0 (limit - 1)`, then every element parsed. */
  function DeadLetterMessages(qs: Queues, limit: int): Result<seq<Queued>> {
    if !qs.redis then Err("Redis not available")
    else
      match ParseAll(LRange(qs.deadLetters, 0, limit - 1))
      case None => Err("SyntaxError")
      case Some(records) => Ok(records)
  }

  /** For a positive limit the listing is the first `limit` dead letters (or all of them, if fewer). */
  lemma DeadLettersPositiveLimit(qs: Queues, limit: int)
    requires qs.redis && limit > 0
    requires forall i :: 0 <= i < |qs.deadLetters| ==> qs.deadLetters[i].Record?
    ensures var r := DeadLetterMessages(qs, limit);
      var n := if limit < |qs.deadLetters| then limit else |qs.deadLetters|;
      r.Ok? && |r.value| == n && forall i :: 0 <= i < n ==> qs.deadLetters[i] == Record(r.value[i])
  {
    var n := if limit < |qs.deadLetters| then limit else |qs.deadLetters|;
    assert LRange(qs.deadLetters, 0, limit - 1) == qs.deadLetters[..n];
  }

  /**
   * As written, a limit of 0 asks for `LRANGE 0 -1`, which is the whole
   * list: the listing returns more than `limit` records whenever the
   * dead-letter queue is not empty.
   */
  lemma DeadLettersZeroLimitReturnsAll(qs: Queues)
    requires qs.redis && |qs.deadLetters| > 0
    requires forall i :: 0 <= i < |qs.deadLetters| ==> qs.deadLetters[i].Record?
    ensures var r := DeadLetterMessages(qs, 0);
      r.Ok? && |r.value| == |qs.deadLetters| > 0
  {
    assert LRange(qs.deadLetters, 0, -1) == qs.deadLetters;
  }

  /** The listing with the limit clamped at zero: never more than `limit` records. */
  function DeadLetterMessagesFixed(qs: Queues, limit: int): (r: Result<seq<Queued>>)
    ensures r.Ok? ==> |r.value| <= (if limit < 0 then 0 else limit)
    ensures r.Ok? ==> |r.value| <= |qs.deadLetters| && forall i :: 0 <= i < |r.value| ==> qs.deadLetters[i] == Record(r.value[i])
    ensures !qs.redis <==> r == Err("Redis not available")
  {
    if limit <= 0 then (if !qs.redis then Err("Redis not available") else Ok([]))
    else
      var n := if limit < |qs.deadLetters| then limit else |qs.deadLetters|;
      assert qs.redis ==> LRange(qs.deadLetters, 0, limit - 1) == qs.deadLetters[..n];
      DeadLetterMessages(qs, limit)
  }
}
