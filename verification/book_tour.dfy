/** The current booking handler: configuration check, form checks, Turnstile verification,
    forward to the Apps Script endpoint, and classification of the endpoint's answer. */
module BookTour {
  import opened Wrappers
  import opened Text
  import opened IframeReply
  import opened BookTourForm

  const MissingSecretMessage: string := "Server config error: missing TURNSTILE_SECRET_KEY."
  const MissingUrlMessage: string := "Server config error: missing GAS_BOOK_TOUR_URL."
  const InvalidSubmissionMessage: string := "Invalid submission."
  const InvalidFormMessage: string := "Invalid form data."
  const SlowDownMessage: string := "Please slow down and try again."
  const NoTokenMessage: string := "Security check failed. Please refresh and try again."
  const VerifierDownMessage: string := "Security service unavailable. Please try again."
  const VerifyFailedMessage: string := "Security check failed."
  const UpstreamDownMessage: string := "Booking service unreachable (fetch failed)."

  /** Longest response preview quoted in a failure message. */
  const PreviewLength: nat := 220

  /** Substrings that mark an upstream answer as a success. */
  const OkMarkers: seq<string> := ["status:\"ok\"", "status:'ok'", "\"status\":\"ok\"", "\"status\": \"ok\"", "status=ok"]

  /** The upstream answered 2xx and its text carries one of the success markers or is
      `ok` / `OK` up to surrounding white space. */
  predicate UpstreamOk(status: nat, text: string)
  {
    Is2xx(status)
    && ((exists k | 0 <= k < |OkMarkers| :: Contains(text, OkMarkers[k])) || Trim(text) == "ok" || Trim(text) == "OK")
  }

  /** The upstream text with white-space runs collapsed, cut to `PreviewLength`. */
  function Preview(text: string): (r: string)
    ensures |r| <= PreviewLength
    ensures |r| <= |Collapse(text)| && r == Collapse(text)[..|r|]
    ensures NoDoubleWhitespace(r)
    ensures Visible(r) == Visible(text) || |r| == PreviewLength
    // The text with every white-space run replaced by one space, cut to 220.
    ensures var w := Runwise(text);
            |r| == (if |w| <= PreviewLength then |w| else PreviewLength) && r == w[..|r|]
  {
    var c := Collapse(text);
    CollapseIsRunwise(text);
    CollapseKeepsVisible(text);
    var r := Take(c, PreviewLength);
    assert forall i | 0 <= i < |r| :: r[i] == c[i];
    r
  }

  const FailurePrefix: string := "Booking failed. Upstream status="
  const PreviewLabel: string := ". Response preview: "

  /** The message for an upstream answer that is not a success: the fixed prefix, the
      status in decimal (which reads back as the status and is followed by a non-digit),
      then the preview of the answer's text. */
  function FailureMessage(status: nat, text: string): (m: string)
    ensures var n := |FailurePrefix|;
            var d := |NatToString(status)|;
            && n + d + |PreviewLabel| <= |m|
            && m[..n] == FailurePrefix
            && m[n..n + d] == NatToString(status)
            && DigitsValue(m[n..n + d]) == status
            && m[n + d..] == PreviewLabel + Preview(text)
  {
    var digits := NatToString(status);
    var tail := PreviewLabel + Preview(text);
    NatToStringRoundTrip(status);
    SplitThree(FailurePrefix, digits, tail);
    assert FailurePrefix + digits + PreviewLabel + Preview(text) == FailurePrefix + digits + tail;
    FailurePrefix + digits + tail
  }

  /** A success marker anywhere in a 2xx answer makes it a success, whatever surrounds it. */
  lemma MarkerAnywherePasses(status: nat, pre: string, k: nat, post: string)
    requires Is2xx(status) && k < |OkMarkers|
    ensures UpstreamOk(status, pre + OkMarkers[k] + post)
  {
    ContainsSpliced(pre, OkMarkers[k], post);
  }

  /** A non-2xx answer is never a success, whatever its text. */
  lemma Non2xxNeverPasses(status: nat, text: string)
    requires !Is2xx(status)
    ensures !UpstreamOk(status, text)
  {
  }

  /** The message for a verifier answer without `success`: its error codes, comma-joined,
      in parentheses when there are any. */
  function VerifyFailure(json: VerifyJson): (m: string)
    ensures json.VerifyObject? && json.errorCodes.Some? && Join(json.errorCodes.value, ",") != ""
            ==> m == "Security check failed. (" + Join(json.errorCodes.value, ",") + ")"
    ensures !(json.VerifyObject? && json.errorCodes.Some? && Join(json.errorCodes.value, ",") != "") ==> m == VerifyFailedMessage
  {
    var codes := if json.VerifyObject? && json.errorCodes.Some? then Join(json.errorCodes.value, ",") else "";
    if codes != "" then "Security check failed. (" + codes + ")" else VerifyFailedMessage
  }

  /** The checks a submission must pass before the verifier is asked. */
  predicate ReachesVerifier(req: Request, env: Env, now: int)
  {
    && req.verb == "POST"
    && env.turnstileSecret != "" && env.gasUrl != ""
    && IsFormContentType(req.contentType)
    && req.form.Some?
    && !HoneypotFilled(req.form.value)
    && !TooFast(req.tsStart, now)
    && Token(req.form.value).Some?
  }

  predicate VerifierApproves(v: Verification)
  {
    v.Verified? && v.json.VerifyObject? && v.json.success
  }

  /** `onRequest` of the current handler. */
  function OnRequest(req: Request, env: Env, now: int, verification: Verification, upstream: Upstream): (r: Handled)
    // Only POST is served; anything else is a bare 405 with no outbound call.
    ensures r.outcome.MethodNotAllowed? <==> req.verb != "POST"
    ensures r.outcome != Thrown
    // Configuration is checked before anything is read from the request.
    ensures req.verb == "POST" && env.turnstileSecret == "" ==> r.outcome == Reply(Error, MissingSecretMessage)
    ensures req.verb == "POST" && env.turnstileSecret != "" && env.gasUrl == "" ==> r.outcome == Reply(Error, MissingUrlMessage)
    // Content types other than the two form encodings, and bodies that do not parse, are refused.
    ensures req.verb == "POST" && env.turnstileSecret != "" && env.gasUrl != "" && !IsFormContentType(req.contentType)
            ==> r == Handled(Reply(Error, InvalidSubmissionMessage), None, None)
    ensures req.verb == "POST" && env.turnstileSecret != "" && env.gasUrl != "" && IsFormContentType(req.contentType)
            && req.form.None?
            ==> r == Handled(Reply(Error, InvalidFormMessage), None, None)
    // A filled honeypot is answered as a success and costs no outbound call.
    ensures req.verb == "POST" && env.turnstileSecret != "" && env.gasUrl != "" && IsFormContentType(req.contentType)
            && req.form.Some? && HoneypotFilled(req.form.value)
            ==> r == Handled(Reply(Ok, ""), None, None)
    // Submitted too fast: an error, no outbound call.
    ensures TooFast(req.tsStart, now) ==> r.verifyCall.None? && r.forwardCall.None?
    ensures req.verb == "POST" && env.turnstileSecret != "" && env.gasUrl != "" && IsFormContentType(req.contentType)
            && req.form.Some? && !HoneypotFilled(req.form.value) && TooFast(req.tsStart, now)
            ==> r.outcome == Reply(Error, SlowDownMessage)
    // The verifier is asked exactly when every check passed, with the secret, token and address.
    ensures r.verifyCall.Some? <==> ReachesVerifier(req, env, now)
    ensures r.verifyCall.Some? ==> r.verifyCall.value == VerifyRequest(env.turnstileSecret, Token(req.form.value).value, req.remoteIp)
    // A missing or empty token is rejected without any outbound call.
    ensures req.form.Some? && Token(req.form.value).None? ==> r.verifyCall.None? && r.forwardCall.None?
    ensures req.verb == "POST" && env.turnstileSecret != "" && env.gasUrl != "" && IsFormContentType(req.contentType)
            && req.form.Some? && !HoneypotFilled(req.form.value) && !TooFast(req.tsStart, now) && Token(req.form.value).None?
            ==> r == Handled(Reply(Error, NoTokenMessage), None, None)
    // A verifier that cannot be reached is reported, and the upstream is not contacted.
    ensures r.verifyCall.Some? && verification.VerifierUnreachable?
            ==> r.outcome == Reply(Error, VerifierDownMessage) && r.forwardCall.None?
    // The upstream is reached only through an approving verifier, with the filtered form.
    ensures r.forwardCall.Some? <==> r.verifyCall.Some? && VerifierApproves(verification)
    ensures r.forwardCall.Some? ==> r.forwardCall.value == ForwardRequest(env.gasUrl, ForwardBody(req.form.value))
    // A disapproving verifier yields an error naming its codes.
    ensures r.verifyCall.Some? && verification.Verified? && !VerifierApproves(verification)
            ==> r.outcome == Reply(Error, VerifyFailure(verification.json))
    // Pass-through exactly for an upstream success, carrying the upstream text.
    ensures r.outcome.PassThrough? <==> r.forwardCall.Some? && upstream.UpstreamReply? && UpstreamOk(upstream.status, upstream.text)
    ensures r.outcome.PassThrough? ==> r.outcome.text == upstream.text
    // Any other upstream answer quotes its status and a bounded preview.
    ensures r.forwardCall.Some? && upstream.UpstreamReply? && !UpstreamOk(upstream.status, upstream.text)
            ==> r.outcome == Reply(Error, FailureMessage(upstream.status, upstream.text))
    // An upstream that cannot be reached is reported with a fixed message.
    ensures r.forwardCall.Some? && upstream.UpstreamUnreachable? ==> r.outcome == Reply(Error, UpstreamDownMessage)
  {
    if req.verb != "POST" then Handled(MethodNotAllowed, None, None)
    else if env.turnstileSecret == "" then Handled(Reply(Error, MissingSecretMessage), None, None)
    else if env.gasUrl == "" then Handled(Reply(Error, MissingUrlMessage), None, None)
    else if !IsFormContentType(req.contentType) then Handled(Reply(Error, InvalidSubmissionMessage), None, None)
    else if req.form.None? then Handled(Reply(Error, InvalidFormMessage), None, None)
    else
      var form := req.form.value;
      if HoneypotFilled(form) then Handled(Reply(Ok, ""), None, None)
      else if TooFast(req.tsStart, now) then Handled(Reply(Error, SlowDownMessage), None, None)
      else if Token(form).None? then Handled(Reply(Error, NoTokenMessage), None, None)
      else
        var call := Some(VerifyRequest(env.turnstileSecret, Token(form).value, req.remoteIp));
        match verification
        case VerifierUnreachable => Handled(Reply(Error, VerifierDownMessage), call, None)
        case Verified(json) =>
          if !(json.VerifyObject? && json.success) then Handled(Reply(Error, VerifyFailure(json)), call, None)
          else
            var fwd := Some(ForwardRequest(env.gasUrl, ForwardBody(form)));
            match upstream
            case UpstreamUnreachable => Handled(Reply(Error, UpstreamDownMessage), call, fwd)
            case UpstreamReply(status, text) =>
              if UpstreamOk(status, text) then Handled(PassThrough(text), call, fwd)
              else Handled(Reply(Error, FailureMessage(status, text)), call, fwd)
  }

  /** The escaped message placed in the reply page. */
  function PageMessage(message: string): string
  {
    CappedMessage(message)
  }

  /** With a realistic HTTP status and a short list of verifier codes, no reply message
      is long enough to be cut, so every reply page reads back as the message meant. */
  lemma RepliesAreNeverCut(req: Request, env: Env, now: int, verification: Verification, upstream: Upstream)
    requires upstream.UpstreamReply? ==> upstream.status < 1000
    requires verification.Verified? && verification.json.VerifyObject? && verification.json.errorCodes.Some?
             ==> |Join(verification.json.errorCodes.value, ",")| <= 375
    ensures var r := OnRequest(req, env, now, verification, upstream);
            r.outcome.Reply? ==> PageMessage(r.outcome.message) == Escape(r.outcome.message)
                                 && Unescape(PageMessage(r.outcome.message)) == LineFeedsAsSpaces(r.outcome.message)
  {
    var r := OnRequest(req, env, now, verification, upstream);
    if r.outcome.Reply? {
      ReplyMessagesAreShort(req, env, now, verification, upstream);
      ShortMessagesAreNotCut(r.outcome.message);
    }
  }

  /** A message of at most 400 characters escapes to at most 800, so nothing is cut. */
  lemma ShortMessagesAreNotCut(m: string)
    requires |m| <= 400
    ensures PageMessage(m) == Escape(m) && Unescape(PageMessage(m)) == LineFeedsAsSpaces(m)
  {
    EscapeRoundTrip(m);
  }

  /** Under the same bounds every reply message has at most 400 characters. */
  lemma ReplyMessagesAreShort(req: Request, env: Env, now: int, verification: Verification, upstream: Upstream)
    requires upstream.UpstreamReply? ==> upstream.status < 1000
    requires verification.Verified? && verification.json.VerifyObject? && verification.json.errorCodes.Some?
             ==> |Join(verification.json.errorCodes.value, ",")| <= 375
    ensures var r := OnRequest(req, env, now, verification, upstream);
            r.outcome.Reply? ==> |r.outcome.message| <= 400
  {
    var r := OnRequest(req, env, now, verification, upstream);
    if r.forwardCall.Some? && upstream.UpstreamReply? {
      FailureMessageLength(upstream.status, upstream.text);
    } else if r.verifyCall.Some? && verification.Verified? && !VerifierApproves(verification) {
      VerifyFailureLength(verification.json);
    } else {
      ShortFixedMessages(req, env, now, verification, upstream);
    }
  }

  /** Replies that neither quote the upstream nor the verifier carry fixed short messages. */
  lemma ShortFixedMessages(req: Request, env: Env, now: int, verification: Verification, upstream: Upstream)
    ensures var r := OnRequest(req, env, now, verification, upstream);
            r.outcome.Reply? && !(r.forwardCall.Some? && upstream.UpstreamReply?) && !(r.verifyCall.Some? && verification.Verified?)
            ==> |r.outcome.message| <= 60
  {
  }

  lemma FailureMessageLength(status: nat, text: string)
    requires status < 1000
    ensures |FailureMessage(status, text)| <= 275
  {
  }

  lemma VerifyFailureLength(json: VerifyJson)
    requires json.VerifyObject? && json.errorCodes.Some? ==> |Join(json.errorCodes.value, ",")| <= 375
    ensures |VerifyFailure(json)| <= 400
  {
  }
}
