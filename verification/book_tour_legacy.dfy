/** The earlier booking handler: no configuration check, several uncaught failures,
    fixed messages, and a stricter success test on the upstream's answer. */
module BookTourLegacy {
  import opened Wrappers
  import opened Text
  import opened IframeReply
  import opened BookTourForm
  import BookTour

  const InvalidSubmissionMessage: string := "Invalid submission."
  const SlowDownMessage: string := "Please slow down and try again."
  const NoTokenMessage: string := "Security check failed. Please refresh."
  const VerifyFailedMessage: string := "Security check failed. Try again."
  const UpstreamDownMessage: string := "Booking service unreachable."
  const BookingFailedMessage: string := "Booking failed. Please try again."

  /** The only success marker this handler accepts. */
  const OkMarker: string := "status:\"ok\""

  /** `upstream.ok && text.includes('status:"ok"')`. */
  predicate UpstreamOk(status: nat, text: string)
  {
    Is2xx(status) && Contains(text, OkMarker)
  }

  /** The checks a submission must pass before the verifier is asked. */
  predicate ReachesVerifier(req: Request, now: int)
  {
    && req.verb == "POST"
    && IsFormContentType(req.contentType)
    && req.form.Some?
    && !HoneypotFilled(req.form.value)
    && !TooFast(req.tsStart, now)
    && Token(req.form.value).Some?
  }

  /** `onRequest` of the earlier handler. The environment values are used as they are. */
  function OnRequest(req: Request, env: Env, now: int, verification: Verification, upstream: Upstream): (r: Handled)
    ensures r.outcome.MethodNotAllowed? <==> req.verb != "POST"
    // Content types other than the two form encodings are refused.
    ensures req.verb == "POST" && !IsFormContentType(req.contentType) ==> r == Handled(Reply(Error, InvalidSubmissionMessage), None, None)
    // An unparsable body is not caught.
    ensures req.verb == "POST" && IsFormContentType(req.contentType) && req.form.None? ==> r == Handled(Thrown, None, None)
    // A filled honeypot is answered as a success and costs no outbound call.
    ensures req.verb == "POST" && IsFormContentType(req.contentType) && req.form.Some? && HoneypotFilled(req.form.value)
            ==> r == Handled(Reply(Ok, ""), None, None)
    ensures TooFast(req.tsStart, now) ==> r.verifyCall.None? && r.forwardCall.None?
    ensures req.verb == "POST" && IsFormContentType(req.contentType) && req.form.Some? && !HoneypotFilled(req.form.value)
            && TooFast(req.tsStart, now)
            ==> r == Handled(Reply(Error, SlowDownMessage), None, None)
    // A missing or empty token is rejected without any outbound call.
    ensures req.form.Some? && Token(req.form.value).None? ==> r.verifyCall.None? && r.forwardCall.None?
    ensures req.verb == "POST" && IsFormContentType(req.contentType) && req.form.Some? && !HoneypotFilled(req.form.value)
            && !TooFast(req.tsStart, now) && Token(req.form.value).None?
            ==> r == Handled(Reply(Error, NoTokenMessage), None, None)
    ensures r.verifyCall.Some? <==> ReachesVerifier(req, now)
    ensures r.verifyCall.Some? ==> r.verifyCall.value == VerifyRequest(env.turnstileSecret, Token(req.form.value).value, req.remoteIp)
    // A verifier that is down or answers `null` makes the handler throw.
    ensures r.verifyCall.Some? && (verification.VerifierUnreachable? || verification == Verified(NullJson)) ==> r.outcome == Thrown
    ensures r.verifyCall.Some? && verification.Verified? && verification.json.VerifyObject? && !verification.json.success
            ==> r.outcome == Reply(Error, VerifyFailedMessage) && r.forwardCall.None?
    ensures r.forwardCall.Some? <==> r.verifyCall.Some? && BookTour.VerifierApproves(verification)
    ensures r.forwardCall.Some? ==> r.forwardCall.value == ForwardRequest(env.gasUrl, ForwardBody(req.form.value))
    ensures r.outcome.PassThrough? <==> r.forwardCall.Some? && upstream.UpstreamReply? && UpstreamOk(upstream.status, upstream.text)
    ensures r.outcome.PassThrough? ==> r.outcome.text == upstream.text
    ensures r.forwardCall.Some? && upstream.UpstreamReply? && !UpstreamOk(upstream.status, upstream.text)
            ==> r.outcome == Reply(Error, BookingFailedMessage)
    // A failed fetch of the upstream is caught and answered with a fixed message.
    ensures r.forwardCall.Some? && upstream.UpstreamUnreachable? ==> r.outcome == Reply(Error, UpstreamDownMessage)
  {
    if req.verb != "POST" then Handled(MethodNotAllowed, None, None)
    else if !IsFormContentType(req.contentType) then Handled(Reply(Error, InvalidSubmissionMessage), None, None)
    else if req.form.None? then Handled(Thrown, None, None)
    else
      var form := req.form.value;
      if HoneypotFilled(form) then Handled(Reply(Ok, ""), None, None)
      else if TooFast(req.tsStart, now) then Handled(Reply(Error, SlowDownMessage), None, None)
      else if Token(form).None? then Handled(Reply(Error, NoTokenMessage), None, None)
      else
        var call := Some(VerifyRequest(env.turnstileSecret, Token(form).value, req.remoteIp));
        match verification
        case VerifierUnreachable => Handled(Thrown, call, None)
        case Verified(json) =>
          match json
          case NullJson => Handled(Thrown, call, None)
          case VerifyObject(success, _) =>
            if !success then Handled(Reply(Error, VerifyFailedMessage), call, None)
            else
              var fwd := Some(ForwardRequest(env.gasUrl, ForwardBody(form)));
              match upstream
              case UpstreamUnreachable => Handled(Reply(Error, UpstreamDownMessage), call, fwd)
              case UpstreamReply(status, text) =>
                if UpstreamOk(status, text) then Handled(PassThrough(text), call, fwd)
                else Handled(Reply(Error, BookingFailedMessage), call, fwd)
  }

  /** The escaped message placed in the reply page: escaped, never cut. */
  function PageMessage(message: string): (r: string)
    ensures Unescape(r) == LineFeedsAsSpaces(message)
    ensures (forall i | 0 <= i < |message| :: message[i] != '\r') ==> LiteralBody(r)
  {
    EscapeRoundTrip(message);
    Escape(message)
  }

  /** Every upstream answer the earlier handler accepts, the current one accepts too. */
  lemma UpstreamOkRefines(status: nat, text: string)
    ensures UpstreamOk(status, text) ==> BookTour.UpstreamOk(status, text)
  {
    if UpstreamOk(status, text) {
      assert BookTour.OkMarkers[0] == OkMarker;
    }
  }

  /** ... and the refinement is strict: a bare `ok` body passes only the current test. */
  lemma UpstreamOkStrictlyWeaker()
    ensures BookTour.UpstreamOk(200, "ok")
    ensures !UpstreamOk(200, "ok")
  {
    BareOkAccepted();
    BareOkRejected();
  }

  lemma BareOkRejected()
    ensures !UpstreamOk(200, "ok")
  {
    assert |OkMarker| > 2;
  }

  lemma BareOkAccepted()
    ensures BookTour.UpstreamOk(200, "ok")
  {
    var s := "ok";
    assert !IsWhitespace(s[0]) && !IsWhitespace(s[1]);
    TrimStartIs(s, 0);
    TrimEndIs(s, 2);
    assert Trim(s) == s;
  }

  /** Whenever the earlier handler passes the upstream's page through, the current handler,
      given both configuration values, makes the same calls and passes the same page. */
  lemma PassThroughRefines(req: Request, env: Env, now: int, verification: Verification, upstream: Upstream)
    requires env.turnstileSecret != "" && env.gasUrl != ""
    requires OnRequest(req, env, now, verification, upstream).outcome.PassThrough?
    ensures BookTour.OnRequest(req, env, now, verification, upstream) == OnRequest(req, env, now, verification, upstream)
  {
    UpstreamOkRefines(upstream.status, upstream.text);
  }

  /** The two handlers answer a filled honeypot identically once the current one is configured. */
  lemma HoneypotAgrees(req: Request, env: Env, now: int, verification: Verification, upstream: Upstream)
    requires env.turnstileSecret != "" && env.gasUrl != ""
    requires req.form.Some? && HoneypotFilled(req.form.value)
    ensures BookTour.OnRequest(req, env, now, verification, upstream) == OnRequest(req, env, now, verification, upstream)
  {
  }
}
