/**
 * The webhook endpoint of `server/api/webhook/whatsapp.post.ts`: method
 * dispatch, the legacy verification branch, the signature gate, the
 * flattening of a Cloud API payload into one record per message, and the
 * acknowledgement policy that answers `ok` whatever happens after the gate.
 *
 * The HMAC-SHA256 digest is a function parameter; the Redis push and the
 * fallback log insert are modelled as a queue and a log table.
 */
module WebhookPost {
  import opened Wrappers
  import Js
  import opened Http
  import opened Payload
  import QueueWorker
  import Helpers
  import Text

  // ------------------------------------------------------------ extraction

  /** `change.value.contacts?.[0]`. */
  function FirstContact(v: ChangeValue): Option<Contact> {
    if v.contacts.Some? && |v.contacts.value| > 0 then Some(v.contacts.value[0]) else None
  }

  /** `contact?.profile.name` throws when a contact has no profile. */
  predicate ContactThrows(contact: Option<Contact>) {
    contact.Some? && contact.value.profile.None?
  }

  /** The record pushed for one message (the contact's profile is known to be present). */
  function ToInbound(m: WaMessage, contact: Option<Contact>): (r: Inbound)
    requires !ContactThrows(contact)
    ensures r.messageId == m.id && r.from == m.from && r.kind == m.kind
    ensures r.text == Js.OrElse(m.text, "")
  {
    var ts := Js.ParseInt(m.timestamp);
    var imageId := if m.image.Some? then Some(m.image.value.id) else None;
    var documentId := if m.document.Some? then Some(m.document.value.id) else None;
    var imageType := if m.image.Some? then Some(m.image.value.mimeType) else None;
    var documentType := if m.document.Some? then Some(m.document.value.mimeType) else None;
    var buttonReply := if m.interactive.Some? then m.interactive.value.buttonReply else None;
    var listReply := if m.interactive.Some? then m.interactive.value.listReply else None;
    Inbound(
      m.id,
      m.from,
      if ts.Some? then Some(ts.value * 1000) else None,
      m.kind,
      Js.OrElse(m.text, ""),
      Js.Or(imageId, documentId),
      Js.Or(imageType, documentType),
      if m.document.Some? then Some(m.document.value.filename) else None,
      if m.button.Some? then Some(m.button.value.payload) else None,
      if m.interactive.Some? then Some(m.interactive.value.kind) else None,
      Js.Or(if buttonReply.Some? then Some(buttonReply.value.id) else None,
            if listReply.Some? then Some(listReply.value.id) else None),
      Js.Or(if buttonReply.Some? then Some(buttonReply.value.title) else None,
            if listReply.Some? then Some(listReply.value.title) else None),
      if contact.Some? then Some(contact.value.profile.value.name) else None,
      if contact.Some? then Some(contact.value.waId) else None)
  }

  /**
   * The record's timestamp is the message's decimal seconds in
   * milliseconds, and its reply id is the one `parseInteractiveMessage`
   * reports whenever that id is not empty (an empty button id falls through
   * to the list reply under `||`).
   */
  lemma InboundFields(m: WaMessage, contact: Option<Contact>, seconds: nat)
    requires !ContactThrows(contact) && m.timestamp == Text.NatToString(seconds)
    ensures ToInbound(m, contact).timestamp == Some(seconds * 1000)
    ensures var p := Helpers.ParseInteractiveMessage(m);
      p.Some? && p.value.id != "" ==> ToInbound(m, contact).replyId == Some(p.value.id)
    ensures Helpers.ParseInteractiveMessage(m).None? ==> ToInbound(m, contact).replyId.None?
  {
    Js.ParseIntReadsDecimal(seconds, "");
    assert Text.IntToString(seconds) + "" == m.timestamp;
  }

  /** A change the loop cannot get through: no `value`, or messages whose first contact has no profile. */
  predicate ChangeThrows(c: Change) {
    c.value.None? ||
    (c.value.value.messages.Some? && |c.value.value.messages.value| > 0 && ContactThrows(FirstContact(c.value.value)))
  }

  /** A message paired with its change's first contact, in payload order. */
  datatype Item = Item(message: WaMessage, contact: Option<Contact>)

  /** The messages of a change, each with the change's first contact. */
  function ChangeItems(c: Change): seq<Item> {
    if c.value.None? || c.value.value.messages.None? then []
    else
      var ms := c.value.value.messages.value;
      seq(|ms|, i requires 0 <= i < |ms| => Item(ms[i], FirstContact(c.value.value)))
  }

  /** The items of a run of changes, in order. */
  function ChangesItems(cs: seq<Change>): seq<Item> {
    if |cs| == 0 then [] else ChangesItems(cs[..|cs| - 1]) + ChangeItems(cs[|cs| - 1])
  }

  function EntryItems(e: Entry): seq<Item> {
    if e.changes.None? then [] else ChangesItems(e.changes.value)
  }

  /** The items of a run of entries, in order. */
  function EntriesItems(es: seq<Entry>): seq<Item> {
    if |es| == 0 then [] else EntriesItems(es[..|es| - 1]) + EntryItems(es[|es| - 1])
  }

  /** Every message of the payload, in entry, change and message order. */
  function Items(p: WebhookPayload): seq<Item> {
    if p.entry.None? then [] else EntriesItems(p.entry.value)
  }

  /** Whether one of the entry's changes throws. */
  predicate EntryThrows(e: Entry) {
    e.changes.Some? && exists j :: 0 <= j < |e.changes.value| && ChangeThrows(e.changes.value[j])
  }

  /** Whether some change the loop reaches throws. */
  predicate PayloadThrows(p: WebhookPayload) {
    p.entry.Some? && exists i :: 0 <= i < |p.entry.value| && EntryThrows(p.entry.value[i])
  }

  /** Items whose contact can be read without throwing. */
  predicate Safe(items: seq<Item>) {
    forall k :: 0 <= k < |items| ==> !ContactThrows(items[k].contact)
  }

  /** The records of items that cannot throw. */
  function Converted(items: seq<Item>): (r: seq<Inbound>)
    requires Safe(items)
    ensures |r| == |items|
    ensures forall k :: 0 <= k < |r| ==> r[k] == ToInbound(items[k].message, items[k].contact)
  {
    seq(|items|, k requires 0 <= k < |items| => ToInbound(items[k].message, items[k].contact))
  }

  lemma ConvertedAppend(a: seq<Item>, b: seq<Item>)
    requires Safe(a) && Safe(b)
    ensures Safe(a + b) && Converted(a + b) == Converted(a) + Converted(b)
  {
  }

  lemma ChangeItemsSafe(c: Change)
    requires !ChangeThrows(c)
    ensures Safe(ChangeItems(c))
  {
  }

  /** The innermost loop of `extractMessages`: the records of one change's messages. */
  method ExtractChange(c: Change) returns (out: seq<Inbound>)
    requires !ChangeThrows(c)
    ensures Safe(ChangeItems(c)) && out == Converted(ChangeItems(c))
  {
    ChangeItemsSafe(c);
    var items := ChangeItems(c);
    out := [];
    var n := 0;
    while n < |items|
      invariant 0 <= n <= |items|
      invariant out == Converted(items[..n])
    {
      assert items[..n + 1] == items[..n] + [items[n]];
      ConvertedAppend(items[..n], [items[n]]);
      out := out + [ToInbound(items[n].message, items[n].contact)];
      n := n + 1;
    }
    assert items[..n] == items;
  }

  /** The middle loop: the records of one entry's changes, or the TypeError of the first change that throws. */
  method ExtractChanges(cs: seq<Change>) returns (r: Result<seq<Inbound>>)
    ensures r.Err? <==> exists j :: 0 <= j < |cs| && ChangeThrows(cs[j])
    ensures r.Err? ==> r.error == "TypeError"
    ensures r.Ok? ==> Safe(ChangesItems(cs)) && r.value == Converted(ChangesItems(cs))
  {
    var out: seq<Inbound> := [];
    var j := 0;
    while j < |cs|
      invariant 0 <= j <= |cs|
      invariant Safe(ChangesItems(cs[..j])) && out == Converted(ChangesItems(cs[..j]))
      invariant forall j' :: 0 <= j' < j ==> !ChangeThrows(cs[j'])
    {
      assert cs[..j + 1][..j] == cs[..j];
      if ChangeThrows(cs[j]) {
        return Err("TypeError");
      }
      var more := ExtractChange(cs[j]);
      ConvertedAppend(ChangesItems(cs[..j]), ChangeItems(cs[j]));
      out := out + more;
      j := j + 1;
    }
    assert cs[..j] == cs;
    r := Ok(out);
  }

  lemma NoThrowSoFar(es: seq<Entry>, i: nat)
    requires i < |es| && !EntryThrows(es[i])
    requires forall i' :: 0 <= i' < i ==> !EntryThrows(es[i'])
    ensures forall i' :: 0 <= i' < i + 1 ==> !EntryThrows(es[i'])
  {
  }

  /** The outer loop: the records of a run of entries, or the TypeError of the first change that throws. */
  method ExtractEntries(es: seq<Entry>) returns (r: Result<seq<Inbound>>)
    ensures r.Err? <==> exists i :: 0 <= i < |es| && EntryThrows(es[i])
    ensures r.Err? ==> r.error == "TypeError"
    ensures r.Ok? ==> Safe(EntriesItems(es)) && r.value == Converted(EntriesItems(es))
  {
    var out: seq<Inbound> := [];
    var i := 0;
    while i < |es|
      invariant 0 <= i <= |es|
      invariant Safe(EntriesItems(es[..i])) && out == Converted(EntriesItems(es[..i]))
      invariant forall i' :: 0 <= i' < i ==> !EntryThrows(es[i'])
    {
      assert es[..i + 1][..i] == es[..i];
      assert EntriesItems(es[..i + 1]) == EntriesItems(es[..i]) + EntryItems(es[i]);
      if es[i].changes.Some? {
        var more := ExtractChanges(es[i].changes.value);
        if more.Err? {
          return Err("TypeError");
        }
        ConvertedAppend(EntriesItems(es[..i]), EntryItems(es[i]));
        out := out + more.value;
      }
      NoThrowSoFar(es, i);
      i := i + 1;
    }
    assert es[..i] == es;
    r := Ok(out);
  }

  /**
   * `extractMessages`: one record per message, in entry, change and message
   * order, each paired with its change's first contact; entries without
   * `changes` and changes without `messages` contribute nothing, and a change
   * without `value` or a contact without `profile` throws.
   */
  method ExtractMessages(p: WebhookPayload) returns (r: Result<seq<Inbound>>)
    ensures r.Err? <==> PayloadThrows(p)
    ensures r.Err? ==> r.error == "TypeError"
    ensures r.Ok? ==> Safe(Items(p)) && r.value == Converted(Items(p))
    ensures r.Ok? ==> |r.value| == |Items(p)|
  {
    if p.entry.None? {
      return Ok([]);
    }
    r := ExtractEntries(p.entry.value);
  }

  /** A `webhook_logs` row written when the Redis push fails. */
  datatype WebhookLog = WebhookLog(
    webhookId: string,
    eventType: string,
    phone: string,
    payload: Inbound,
    responseStatus: int,
    errorMessage: string,
    createdAt: int)

  /** What a POST can change: the incoming queue and the log table. */
  datatype Sink = Sink(queue: seq<QueueWorker.Entry>, logs: seq<WebhookLog>)

  /** The record `queueMessage` stores: the extracted message plus `queued_at` and status `pending`. */
  function Pending(m: Inbound, now: int): QueueWorker.Queued {
    QueueWorker.Queued(m, now, "pending", None, None, None, None)
  }

  /** The row `queueMessage` logs, with status 500, when the push fails. */
  function FailLog(m: Inbound, now: int): WebhookLog {
    WebhookLog(m.messageId, "incoming_message", m.from, m, 500, "Failed to queue to Redis", now)
  }

  /** `queueMessage`: push at the head, or log the failure when Redis is down. */
  function QueueMessage(sink: Sink, m: Inbound, redisUp: bool, now: int): (r: Sink)
    ensures redisUp ==> r.logs == sink.logs && r.queue == [QueueWorker.Record(Pending(m, now))] + sink.queue
    ensures !redisUp ==> r.queue == sink.queue && r.logs == sink.logs + [FailLog(m, now)]
  {
    if redisUp then sink.(queue := [QueueWorker.Record(Pending(m, now))] + sink.queue)
    else sink.(logs := sink.logs + [FailLog(m, now)])
  }

  /** The outcomes of the pushes after the first. */
  function Later(up: nat -> bool): nat -> bool {
    (k: nat) => up(k + 1)
  }

  /** The loop over extracted messages; `up(k)` says whether the k-th push reaches Redis. */
  function QueueAll(sink: Sink, ms: seq<Inbound>, up: nat -> bool, now: int): Sink
    decreases |ms|
  {
    if |ms| == 0 then sink else QueueAll(QueueMessage(sink, ms[0], up(0), now), ms[1..], Later(up), now)
  }

  /** The messages whose push reached Redis, in arrival order. */
  function Pushed(ms: seq<Inbound>, up: nat -> bool): (r: seq<Inbound>)
    ensures |r| <= |ms|
    decreases |ms|
  {
    if |ms| == 0 then [] else (if up(0) then [ms[0]] else []) + Pushed(ms[1..], Later(up))
  }

  /** The failure rows of the messages whose push did not reach Redis, in arrival order. */
  function FailedLogs(ms: seq<Inbound>, up: nat -> bool, now: int): (r: seq<WebhookLog>)
    ensures |r| <= |ms|
    decreases |ms|
  {
    if |ms| == 0 then [] else (if up(0) then [] else [FailLog(ms[0], now)]) + FailedLogs(ms[1..], Later(up), now)
  }

  /** The queued records in head-first order: the last message pushed is at the head. */
  function PushedOrder(ms: seq<Inbound>, now: int): (r: seq<QueueWorker.Entry>)
    ensures |r| == |ms|
    ensures forall k :: 0 <= k < |ms| ==> r[k] == QueueWorker.Record(Pending(ms[|ms| - 1 - k], now))
  {
    if |ms| == 0 then [] else [QueueWorker.Record(Pending(ms[|ms| - 1], now))] + PushedOrder(ms[..|ms| - 1], now)
  }

  lemma PushedOrderCons(ms: seq<Inbound>, now: int)
    requires |ms| > 0
    ensures PushedOrder(ms, now) == PushedOrder(ms[1..], now) + [QueueWorker.Record(Pending(ms[0], now))]
  {
    var a := PushedOrder(ms, now);
    var b := PushedOrder(ms[1..], now) + [QueueWorker.Record(Pending(ms[0], now))];
    assert |a| == |b|;
    forall k | 0 <= k < |a| ensures a[k] == b[k] {
      if k < |ms| - 1 {
        assert ms[1..][|ms[1..]| - 1 - k] == ms[|ms| - 1 - k];
      }
    }
  }

  /**
   * Each push succeeds or fails on its own: the messages that reached Redis
   * land ahead of the existing queue in reverse, so the worker, which pops
   * from the tail, takes them in arrival order after everything queued
   * before; every other message leaves its failure row, in arrival order,
   * after the rows already logged.
   */
  lemma {:induction false} QueueAllSplit(sink: Sink, ms: seq<Inbound>, up: nat -> bool, now: int)
    ensures QueueAll(sink, ms, up, now) == Sink(PushedOrder(Pushed(ms, up), now) + sink.queue, sink.logs + FailedLogs(ms, up, now))
    decreases |ms|
  {
    if |ms| > 0 {
      var next := QueueMessage(sink, ms[0], up(0), now);
      QueueAllSplit(next, ms[1..], Later(up), now);
      if up(0) {
        PushedHead(sink, ms, up, now);
      } else {
        FailedHead(sink, ms, up, now);
      }
    }
  }

  /** A first push that reaches Redis goes behind the later ones in the queue and logs nothing. */
  lemma PushedHead(sink: Sink, ms: seq<Inbound>, up: nat -> bool, now: int)
    requires |ms| > 0 && up(0)
    ensures var next := QueueMessage(sink, ms[0], true, now);
      && PushedOrder(Pushed(ms[1..], Later(up)), now) + next.queue == PushedOrder(Pushed(ms, up), now) + sink.queue
      && next.logs + FailedLogs(ms[1..], Later(up), now) == sink.logs + FailedLogs(ms, up, now)
  {
    var tail := Pushed(ms[1..], Later(up));
    var full := Pushed(ms, up);
    assert full == [ms[0]] + tail;
    var head := QueueWorker.Record(Pending(ms[0], now));
    assert PushedOrder(full, now) == PushedOrder(tail, now) + [head] by {
      PushedOrderCons(full, now);
      assert full[1..] == tail && full[0] == ms[0];
    }
    assert PushedOrder(tail, now) + ([head] + sink.queue) == (PushedOrder(tail, now) + [head]) + sink.queue;
    assert FailedLogs(ms, up, now) == FailedLogs(ms[1..], Later(up), now);
  }

  /** A first push that fails leaves the queue alone and logs its row ahead of the later failures. */
  lemma FailedHead(sink: Sink, ms: seq<Inbound>, up: nat -> bool, now: int)
    requires |ms| > 0 && !up(0)
    ensures var next := QueueMessage(sink, ms[0], false, now);
      && PushedOrder(Pushed(ms[1..], Later(up)), now) + next.queue == PushedOrder(Pushed(ms, up), now) + sink.queue
      && next.logs + FailedLogs(ms[1..], Later(up), now) == sink.logs + FailedLogs(ms, up, now)
  {
    var fails := FailedLogs(ms[1..], Later(up), now);
    assert FailedLogs(ms, up, now) == [FailLog(ms[0], now)] + fails;
    assert (sink.logs + [FailLog(ms[0], now)]) + fails == sink.logs + ([FailLog(ms[0], now)] + fails);
  }

  /** When every push reaches Redis, every message is pushed and nothing is logged. */
  lemma {:induction false} AllPushed(ms: seq<Inbound>, up: nat -> bool, now: int)
    requires forall k :: 0 <= k < |ms| ==> up(k)
    ensures Pushed(ms, up) == ms && FailedLogs(ms, up, now) == []
    decreases |ms|
  {
    if |ms| > 0 {
      assert up(0);
      forall k | 0 <= k < |ms[1..]| ensures Later(up)(k) {
        assert up(k + 1);
      }
      AllPushed(ms[1..], Later(up), now);
      assert ms == [ms[0]] + ms[1..];
    }
  }

  /** When no push reaches Redis, nothing is pushed and every message leaves its failure row. */
  lemma {:induction false} NonePushed(ms: seq<Inbound>, up: nat -> bool, now: int)
    requires forall k :: 0 <= k < |ms| ==> !up(k)
    ensures Pushed(ms, up) == []
    ensures |FailedLogs(ms, up, now)| == |ms|
    ensures forall k :: 0 <= k < |ms| ==> FailedLogs(ms, up, now)[k] == FailLog(ms[k], now)
    decreases |ms|
  {
    if |ms| > 0 {
      assert !up(0);
      forall k | 0 <= k < |ms[1..]| ensures !Later(up)(k) {
        assert !up(k + 1);
      }
      NonePushed(ms[1..], Later(up), now);
      var r := FailedLogs(ms, up, now);
      assert r == [FailLog(ms[0], now)] + FailedLogs(ms[1..], Later(up), now);
      forall k | 0 <= k < |ms| ensures r[k] == FailLog(ms[k], now) {
        if k > 0 {
          assert ms[1..][k - 1] == ms[k];
        }
      }
    }
  }

  /** With Redis up for every push, the messages are queued in arrival order and nothing is logged. */
  lemma QueueAllPushes(sink: Sink, ms: seq<Inbound>, up: nat -> bool, now: int)
    requires forall k :: 0 <= k < |ms| ==> up(k)
    ensures QueueAll(sink, ms, up, now) == sink.(queue := PushedOrder(ms, now) + sink.queue)
  {
    QueueAllSplit(sink, ms, up, now);
    AllPushed(ms, up, now);
  }

  /** With Redis down for every push, each message leaves one 500 log row, in order, and nothing is queued. */
  lemma QueueAllLogs(sink: Sink, ms: seq<Inbound>, up: nat -> bool, now: int)
    requires forall k :: 0 <= k < |ms| ==> !up(k)
    ensures QueueAll(sink, ms, up, now).queue == sink.queue
    ensures |QueueAll(sink, ms, up, now).logs| == |sink.logs| + |ms|
    ensures forall k :: 0 <= k < |ms| ==> (QueueAll(sink, ms, up, now).logs[|sink.logs| + k].webhookId == ms[k].messageId
      && QueueAll(sink, ms, up, now).logs[|sink.logs| + k].responseStatus == 500)
    ensures QueueAll(sink, ms, up, now).logs[..|sink.logs|] == sink.logs
  {
    QueueAllSplit(sink, ms, up, now);
    NonePushed(ms, up, now);
    var r := QueueAll(sink, ms, up, now);
    forall k | 0 <= k < |ms|
      ensures r.logs[|sink.logs| + k].webhookId == ms[k].messageId && r.logs[|sink.logs| + k].responseStatus == 500
    {
      assert r.logs[|sink.logs| + k] == FailedLogs(ms, up, now)[k];
    }
    assert r.logs[..|sink.logs|] == sink.logs;
  }

  /** The `x-hub-signature-256` check; the digest of the re-serialised body is a parameter. */
  predicate SignatureValid(p: WebhookPayload, header: Option<string>, secret: Option<string>,
                           hmacHex: (string, WebhookPayload) -> string) {
    Js.Truthy(header) && Js.Truthy(secret) && header.value == "sha256=" + hmacHex(secret.value, p)
  }

  /** `{ status: 'ok' }`. */
  const Ack: string := "ok"

  /**
   * `handleWebhookMessage`: a bad signature is a 403 and nothing is read or
   * queued; after the gate the reply is always `ok`; the messages are
   * queued only when extraction succeeds (it runs to completion before the
   * first push).
   */
  method HandleWebhookMessage(sink: Sink, p: WebhookPayload, header: Option<string>, secret: Option<string>,
                              hmacHex: (string, WebhookPayload) -> string, up: nat -> bool, now: int)
    returns (sink': Sink, reply: Response<string>)
    ensures !SignatureValid(p, header, secret, hmacHex) ==> sink' == sink && reply == Fail(403, "Invalid webhook signature")
    ensures SignatureValid(p, header, secret, hmacHex) ==> reply == Body(Ack)
    ensures PayloadThrows(p) ==> sink' == sink
    ensures SignatureValid(p, header, secret, hmacHex) && !PayloadThrows(p) ==>
      Safe(Items(p)) && sink' == QueueAll(sink, Converted(Items(p)), up, now)
  {
    if !SignatureValid(p, header, secret, hmacHex) {
      return sink, Fail(403, "Invalid webhook signature");
    }
    var messages := ExtractMessages(p);
    if messages.Err? {
      return sink, Body(Ack);
    }
    sink' := QueueAll(sink, messages.value, up, now);
    reply := Body(Ack);
  }

  /** The legacy verification branch: the configured token must be set and equal `hub_verify_token`. */
  function HandleWebhookVerification(verifyToken: Option<string>, challenge: Option<string>, configured: Option<string>): (r: Response<Option<string>>)
    ensures r.Body? <==> Js.Truthy(configured) && verifyToken == configured
    ensures r.Body? ==> r.body == challenge
    ensures r.Fail? ==> r == Fail(403, "Invalid verification token")
  {
    if !Js.Truthy(configured) || verifyToken != configured then Fail(403, "Invalid verification token")
    else Body(challenge)
  }

  /** A request to the endpoint. */
  datatype Request = Request(
    httpMethod: string,
    verifyToken: Option<string>,
    challenge: Option<string>,
    payload: WebhookPayload,
    signature: Option<string>)

  /** The endpoint's answer: the verification echo, the acknowledgement, or an error. */
  datatype Answer = Echo(challenge: Option<string>) | Acked | Refused(status: int, message: string)

  /** The default handler: GET verifies, POST receives, anything else is a 405. */
  method Dispatch(sink: Sink, req: Request, configured: Option<string>, secret: Option<string>,
                  hmacHex: (string, WebhookPayload) -> string, up: nat -> bool, now: int)
    returns (sink': Sink, answer: Answer)
    ensures req.httpMethod != "GET" && req.httpMethod != "POST" ==> sink' == sink && answer == Refused(405, "Method not allowed")
    ensures req.httpMethod == "GET" ==> sink' == sink && (answer.Echo? <==> Js.Truthy(configured) && req.verifyToken == configured)
    ensures req.httpMethod == "GET" && answer.Echo? ==> answer.challenge == req.challenge
    ensures req.httpMethod == "POST" ==> (answer == Acked <==> SignatureValid(req.payload, req.signature, secret, hmacHex))
    ensures req.httpMethod == "POST" && answer != Acked ==> sink' == sink && answer == Refused(403, "Invalid webhook signature")
  {
    if req.httpMethod == "GET" {
      var v := HandleWebhookVerification(req.verifyToken, req.challenge, configured);
      sink' := sink;
      answer := if v.Body? then Echo(v.body) else Refused(v.status, v.message);
    } else if req.httpMethod == "POST" {
      var reply;
      sink', reply := HandleWebhookMessage(sink, req.payload, req.signature, secret, hmacHex, up, now);
      answer := if reply.Body? then Acked else Refused(reply.status, reply.message);
    } else {
      sink', answer := sink, Refused(405, "Method not allowed");
    }
  }
}
