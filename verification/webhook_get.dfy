/**
 * The webhook verification endpoint of `server/api/webhook/whatsapp.get.ts`:
 * the handshake a subscription request must pass, checked in a fixed order.
 */
module WebhookGet {
  import opened Wrappers
  import Js
  import opened Http

  /** The query string, with both spellings of each parameter. */
  datatype Query = Query(
    dottedMode: Option<string>,
    underscoredMode: Option<string>,
    dottedChallenge: Option<string>,
    underscoredChallenge: Option<string>,
    dottedToken: Option<string>,
    underscoredToken: Option<string>)

  /** `query['hub.mode'] || query.hub_mode`. */
  function Mode(q: Query): Option<string> {
    Js.Or(q.dottedMode, q.underscoredMode)
  }

  function Challenge(q: Query): Option<string> {
    Js.Or(q.dottedChallenge, q.underscoredChallenge)
  }

  function Token(q: Query): Option<string> {
    Js.Or(q.dottedToken, q.underscoredToken)
  }

  /** `${hubMode}` for the error text. */
  function Shown(s: Option<string>): string {
    match s
    case None => "undefined"
    case Some(v) => v
  }

  /**
   * The handler: no configured token is a 500; a token mismatch a 403; a
   * mode other than `subscribe` a 400; a missing challenge a 400; otherwise
   * the challenge is echoed.
   */
  function Verify(q: Query, configured: Option<string>): (r: Response<string>)
    ensures !Js.Truthy(configured) ==> r == Fail(500, "Webhook token not configured")
    ensures Js.Truthy(configured) && Token(q) != configured ==> r == Fail(403, "Invalid verification token")
  {
    if !Js.Truthy(configured) then Fail(500, "Webhook token not configured")
    else if Token(q) != configured then Fail(403, "Invalid verification token")
    else if Mode(q) != Some("subscribe") then Fail(400, "Invalid mode: " + Shown(Mode(q)) + ". Expected: subscribe")
    else if !Js.Truthy(Challenge(q)) then Fail(400, "Missing hub_challenge parameter")
    else Body(Challenge(q).value)
  }

  /**
   * The handshake succeeds exactly when a token is configured, the request's
   * token equals it, the mode is `subscribe` and a challenge is present; the
   * body is then the challenge, verbatim.
   */
  lemma VerifyAcceptsIff(q: Query, configured: Option<string>)
    ensures Verify(q, configured).Body? <==>
      Js.Truthy(configured) && Token(q) == configured && Mode(q) == Some("subscribe") && Js.Truthy(Challenge(q))
    ensures Verify(q, configured).Body? ==> Verify(q, configured).body == Challenge(q).value && Verify(q, configured).body != ""
  {
  }

  /** Every rejection is a 500, a 403 or a 400, and the token is checked before the mode and the challenge. */
  lemma VerifyRejectionOrder(q: Query, configured: Option<string>)
    ensures Verify(q, configured).Fail? ==> Verify(q, configured).status in {500, 403, 400}
    ensures Verify(q, configured).Fail? && Verify(q, configured).status == 400 ==> Js.Truthy(configured) && Token(q) == configured
    ensures Verify(q, configured).Fail? && Verify(q, configured).status == 400 && Mode(q) == Some("subscribe") ==>
      Verify(q, configured) == Fail(400, "Missing hub_challenge parameter")
  {
  }

  /** A non-empty dotted parameter wins: the underscored spellings are then never read. */
  lemma DottedTakesPrecedence(q: Query, configured: Option<string>, other: Query)
    requires Js.Truthy(q.dottedMode) && Js.Truthy(q.dottedChallenge) && Js.Truthy(q.dottedToken)
    requires other == q.(underscoredMode := other.underscoredMode, underscoredChallenge := other.underscoredChallenge,
                         underscoredToken := other.underscoredToken)
    ensures Verify(other, configured) == Verify(q, configured)
  {
  }
}
