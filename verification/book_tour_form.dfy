/** What the two booking handlers share: the submitted form, its control fields, the
    filter that builds the forwarded body, the checks that precede verification, and
    the shapes of the verifier's and upstream's answers. */
module BookTourForm {
  import opened Wrappers
  import opened Text

  /** A submitted form: its entries in submission order, duplicates allowed. */
  type Form = seq<(string, string)>

  const HoneypotField: string := "website"
  const TimingField: string := "ts_start"
  const TokenField: string := "cf-turnstile-response"

  /** Minimum time, in milliseconds, between rendering the form and submitting it. */
  const MinDwellMs: int := 4000

  /** `formData.get(key)`: the value of the first entry named `key`, if any. */
  function FormGet(form: Form, key: string): (r: Option<string>)
    ensures r.None? <==> forall i | 0 <= i < |form| :: form[i].0 != key
    ensures r.Some? ==> exists i | 0 <= i < |form| :: form[i] == (key, r.value) && forall j | 0 <= j < i :: form[j].0 != key
  {
    if form == [] then None
    else if form[0].0 == key then Some(form[0].1)
    else
      var r := FormGet(form[1..], key);
      assert forall i | 1 <= i < |form| :: form[i] == form[1..][i - 1];
      r
  }

  /** The three fields the handlers consume themselves and never forward. */
  predicate IsControlField(k: string)
  {
    k == TokenField || k == HoneypotField || k == TimingField
  }

  /** The body forwarded upstream: the form's entries in order, skipping control fields. */
  function ForwardBody(form: Form): (r: Form)
    ensures |r| <= |form|
    ensures forall i | 0 <= i < |r| :: !IsControlField(r[i].0)
    ensures forall e: (string, string) | !IsControlField(e.0) :: multiset(r)[e] == multiset(form)[e]
  {
    if form == [] then []
    else
      var rest := ForwardBody(form[1..]);
      assert form == [form[0]] + form[1..];
      if IsControlField(form[0].0) then rest else [form[0]] + rest
  }

  /** The filter is order-preserving: it distributes over concatenation, so the forwarded
      body of a form is the forwarded bodies of its parts, in the same order. */
  lemma {:induction false} ForwardBodyAppend(a: Form, b: Form)
    ensures ForwardBody(a + b) == ForwardBody(a) + ForwardBody(b)
    decreases |a|
  {
    if a == [] {
      assert a + b == b;
    } else {
      assert (a + b)[0] == a[0] && (a + b)[1..] == a[1..] + b;
      ForwardBodyAppend(a[1..], b);
    }
  }

  /** One entry is forwarded exactly when its name is not a control field. */
  lemma ForwardBodySingle(e: (string, string))
    ensures ForwardBody([e]) == if IsControlField(e.0) then [] else [e]
  {
    assert [e][1..] == [];
  }

  /** The honeypot field holds something other than white space. */
  predicate HoneypotFilled(form: Form)
  {
    Trim(FormGet(form, HoneypotField).GetOr("")) != ""
  }

  /** A missing honeypot and one of only white space both let a submission through; one
      visible character anywhere in it marks the submission as a bot's. */
  lemma HoneypotFilledIffVisible(form: Form)
    ensures HoneypotFilled(form)
            <==> FormGet(form, HoneypotField).Some? && !AllWhitespace(FormGet(form, HoneypotField).value)
  {
    TrimAllWhitespace(FormGet(form, HoneypotField).GetOr(""));
  }

  /** `tsStart && now - tsStart < 4000`: a present, non-zero start time less than the
      minimum dwell time ago (or in the future). `None` is a missing or non-numeric field. */
  predicate TooFast(tsStart: Option<int>, now: int)
  {
    tsStart.Some? && tsStart.value != 0 && now - tsStart.value < MinDwellMs
  }

  /** The Turnstile token, when present and non-empty: the empty string is as good as no
      token. */
  function Token(form: Form): (r: Option<string>)
    ensures r.Some? <==> FormGet(form, TokenField).Some? && FormGet(form, TokenField).value != ""
    ensures r.Some? ==> r == FormGet(form, TokenField)
  {
    match FormGet(form, TokenField)
    case Some(t) => if t == "" then None else Some(t)
    case None => None
  }

  /** The content type names one of the two form encodings. */
  predicate IsFormContentType(contentType: string)
  {
    Contains(contentType, "application/x-www-form-urlencoded") || Contains(contentType, "multipart/form-data")
  }

  /** Either encoding name anywhere in the header makes it a form type, so parameters such
      as `; charset=UTF-8` or a multipart boundary do not matter. */
  lemma FormContentTypeAnywhere(pre: string, post: string, multipart: bool)
    ensures IsFormContentType(pre + (if multipart then "multipart/form-data" else "application/x-www-form-urlencoded") + post)
  {
    if multipart {
      ContainsSpliced(pre, "multipart/form-data", post);
    } else {
      ContainsSpliced(pre, "application/x-www-form-urlencoded", post);
    }
  }

  /** An incoming request. `form` is `None` when the body cannot be parsed as a form;
      `tsStart` is `Number(form.get("ts_start") || "0")`, `None` standing for NaN;
      `remoteIp` is the `CF-Connecting-IP` header, empty when absent. */
  datatype Request = Request(verb: string, contentType: string, remoteIp: string, form: Option<Form>, tsStart: Option<int>)

  /** Environment values, the empty string standing for an unset one. */
  datatype Env = Env(turnstileSecret: string, gasUrl: string)

  /** The parsed verifier answer: `NullJson` for a `null` body, otherwise its `success`
      flag (truthiness) and its `error-codes` when that is an array. */
  datatype VerifyJson = NullJson | VerifyObject(success: bool, errorCodes: Option<seq<string>>)

  /** The verification call: it throws (network or JSON failure) or yields a parsed body. */
  datatype Verification = VerifierUnreachable | Verified(json: VerifyJson)

  /** The forward call: it throws, or yields an HTTP status and a body text. */
  datatype Upstream = UpstreamUnreachable | UpstreamReply(status: nat, text: string)

  datatype VerifyRequest = VerifyRequest(secret: string, response: string, remoteIp: string)
  datatype ForwardRequest = ForwardRequest(url: string, body: Form)

  datatype ReplyStatus = Ok | Error

  /** What the handler answers: 405, an iframe page posting `{status, message}` to its
      parent, the upstream's page passed through, or an uncaught exception. */
  datatype Outcome = MethodNotAllowed | Reply(status: ReplyStatus, message: string) | PassThrough(text: string) | Thrown

  /** An answer together with the outbound calls made to reach it. */
  datatype Handled = Handled(outcome: Outcome, verifyCall: Option<VerifyRequest>, forwardCall: Option<ForwardRequest>)

  /** `upstream.ok`: a 2xx status. */
  predicate Is2xx(status: nat)
  {
    200 <= status < 300
  }
}
