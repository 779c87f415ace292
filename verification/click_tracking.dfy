/** The admin pages' click tracking: which link clicks are reported to analytics and under
    which event name, the link text that goes with the event, and the pair of at-most-once
    latches that guard the delayed navigation for same-tab clicks. */
module ClickTracking {
  import opened Wrappers
  import opened Text

  const MaxLinkText: nat := 120

  /** What `safeText` reads from the clicked anchor. */
  datatype TextSource = TextSource(ariaLabel: Option<string>, textContent: string)

  /** `el && (el.getAttribute("aria-label") || el.textContent)`: an empty label falls
      through to the text content; no element gives nothing. */
  function LabelOf(el: Option<TextSource>): string
  {
    match el
    case None => ""
    case Some(e) => if e.ariaLabel.Some? && e.ariaLabel.value != "" then e.ariaLabel.value else e.textContent
  }

  /** `safeText(el)`: the label trimmed, its white space runs collapsed to one space, and
      cut to 120 characters. */
  function SafeText(el: Option<TextSource>): (r: string)
    ensures |r| <= MaxLinkText
    ensures r == [] || !IsWhitespace(r[0])
    ensures NoDoubleWhitespace(r)
    ensures r == [] <==> AllWhitespace(LabelOf(el))
    // The trimmed label with every white-space run replaced by one space, cut to 120.
    ensures var w := Runwise(Trim(LabelOf(el)));
            |r| == (if |w| <= MaxLinkText then |w| else MaxLinkText) && r == w[..|r|]
  {
    var t := LabelOf(el);
    var u := Trim(t);
    var c := Collapse(u);
    CollapseIsRunwise(u);
    TrimAllWhitespace(t);
    var r := Take(c, MaxLinkText);
    PrefixKeepsSpacing(c, r);
    r
  }

  /** The link text keeps the label's visible characters in order: all of them when the
      collapsed label fits, a leading part of them otherwise. */
  lemma SafeTextKeepsVisible(el: Option<TextSource>)
    ensures var v := Visible(SafeText(el));
            |v| <= |Visible(LabelOf(el))| && v == Visible(LabelOf(el))[..|v|]
    ensures |Collapse(Trim(LabelOf(el)))| <= MaxLinkText ==> Visible(SafeText(el)) == Visible(LabelOf(el))
  {
    var t := LabelOf(el);
    var c := Collapse(Trim(t));
    CleanKeepsVisible(t);
    assert SafeText(el) == Take(c, MaxLinkText);
    if |c| > MaxLinkText {
      assert Take(c, MaxLinkText) == c[..MaxLinkText];
      VisiblePrefix(c, MaxLinkText);
    }
  }

  lemma CleanKeepsVisible(t: string)
    ensures Visible(Collapse(Trim(t))) == Visible(t)
  {
    TrimKeepsVisible(t);
    CollapseKeepsVisible(Trim(t));
  }

  /** The parts of a click event the script looks at. */
  datatype Click = Click(metaKey: bool, ctrlKey: bool, shiftKey: bool, altKey: bool, button: int)

  /** `isModifiedClick(ev)`: the browser would open the link somewhere else. */
  predicate IsModifiedClick(ev: Click)
  {
    ev.metaKey || ev.ctrlKey || ev.shiftKey || ev.altKey || ev.button != 0
  }

  /** `new URL(href, location)`, already resolved: its host name, full href and path. */
  datatype Url = Url(hostname: string, href: string, pathname: string)

  /** `isWhatsAppUrl(u)`, case-insensitively on host and href. */
  predicate IsWhatsAppUrl(u: Option<Url>)
  {
    u.Some? &&
    var host := ToLower(u.value.hostname);
    host == "wa.me" || EndsWith(host, "whatsapp.com") || Contains(ToLower(u.value.href), "api.whatsapp.com")
  }

  /** `isExperienceEcuadorUrl(u)`: the domain itself or one of its subdomains. */
  predicate IsExperienceEcuadorUrl(u: Option<Url>)
  {
    u.Some? &&
    var host := ToLower(u.value.hostname);
    host == "experienceecuador.com" || EndsWith(host, ".experienceecuador.com")
  }

  /** The Experience Ecuador test respects label boundaries: a host that merely ends in the
      domain's letters, without a dot before them, is not a match. */
  lemma ExperienceEcuadorNeedsDot(u: Url)
    requires var host := ToLower(u.hostname);
             EndsWith(host, "experienceecuador.com") && host != "experienceecuador.com"
             && host[|host| - |"experienceecuador.com"| - 1] != '.'
    ensures !IsExperienceEcuadorUrl(Some(u))
  {
  }

  /** The WhatsApp host test has no such boundary: every host that ends in the letters
      `whatsapp.com`, whatever comes before them, counts. */
  lemma WhatsAppAcceptsLookalikeHost(prefix: string, href: string, pathname: string)
    ensures IsWhatsAppUrl(Some(Url(prefix + "whatsapp.com", href, pathname)))
  {
    var raw := prefix + "whatsapp.com";
    var host := ToLower(raw);
    forall i | |prefix| <= i < |host| ensures host[i] == raw[i] {
      assert raw[i] == "whatsapp.com"[i - |prefix|];
    }
    assert host[|host| - |"whatsapp.com"|..] == "whatsapp.com";
  }

  /** Both tests ignore the letter case of host and href. */
  lemma ClassificationIgnoresCase(u: Url)
    ensures var l := u.(hostname := ToLower(u.hostname), href := ToLower(u.href));
            (IsWhatsAppUrl(Some(u)) <==> IsWhatsAppUrl(Some(l)))
            && (IsExperienceEcuadorUrl(Some(u)) <==> IsExperienceEcuadorUrl(Some(l)))
  {
    ToLowerIdempotent(u.hostname);
    ToLowerIdempotent(u.href);
  }

  const WhatsAppEvent: string := "mbw_whatsapp_click"
  const ExperienceEcuadorEvent: string := "mbw_outbound_experienceecuador_click"

  /** The event name for a classified link; WhatsApp wins when both tests match. */
  function EventName(u: Option<Url>): (r: Option<string>)
    ensures r.None? <==> !IsWhatsAppUrl(u) && !IsExperienceEcuadorUrl(u)
    ensures r == Some(WhatsAppEvent) <==> IsWhatsAppUrl(u)
    ensures r == Some(ExperienceEcuadorEvent) <==> !IsWhatsAppUrl(u) && IsExperienceEcuadorUrl(u)
  {
    if IsWhatsAppUrl(u) then Some(WhatsAppEvent)
    else if IsExperienceEcuadorUrl(u) then Some(ExperienceEcuadorEvent)
    else None
  }

  /** The clicked `a[href]`, as far as the handler reads it. */
  datatype Anchor = Anchor(href: Option<string>, target: Option<string>, text: TextSource)

  /** The page the click happened on: `location.href`, `location.pathname` and the
      document's `lang`, each empty when missing. */
  datatype Page = Page(href: string, pathname: string, lang: string)

  datatype Params = Params(
    linkUrl: string, linkDomain: string, linkPath: string, linkText: string,
    pageLocation: string, pagePath: string, pageLang: string)

  datatype Event = Event(name: string, params: Params)

  /** What the click handler does: nothing; report and let the browser follow the link; or
      stop the browser, report, and navigate to `dest` itself once the report is done. */
  datatype Decision = Ignore | TrackOnly(event: Event) | TrackThenNavigate(event: Event, dest: string)

  /** `handleClick(ev)` given the closest anchor and the resolution of its href. */
  function HandleClick(ev: Click, anchor: Option<Anchor>, resolved: Option<Url>, page: Page): (r: Decision)
    ensures r.Ignore? <==>
              anchor.None? || anchor.value.href.GetOr("") == "" || EventName(resolved).None?
    ensures !r.Ignore? ==> r.event.name == EventName(resolved).value
    ensures !r.Ignore? ==>
              r.event.params.linkUrl == resolved.value.href
              && r.event.params.linkText == SafeText(Some(anchor.value.text))
              && |r.event.params.linkText| <= MaxLinkText
    // The link's host and path come from the resolved URL, the page fields from the page.
    ensures !r.Ignore? ==>
              r.event.params == Params(resolved.value.href, resolved.value.hostname, resolved.value.pathname,
                                       SafeText(Some(anchor.value.text)), page.href, page.pathname, page.lang)
    ensures r.TrackOnly? <==>
              !r.Ignore? && (ToLower(anchor.value.target.GetOr("")) == "_blank" || IsModifiedClick(ev))
    ensures r.TrackThenNavigate? ==> r.dest == resolved.value.href
  {
    if anchor.None? then Ignore
    else
      var a := anchor.value;
      if a.href.GetOr("") == "" then Ignore
      else match resolved
        case None => Ignore
        case Some(url) =>
          match EventName(resolved)
          case None => Ignore
          case Some(name) =>
            var params := Params(url.href, url.hostname, url.pathname, SafeText(Some(a.text)),
                                 page.href, page.pathname, page.lang);
            var newTab := ToLower(a.target.GetOr("")) == "_blank";
            if newTab || IsModifiedClick(ev) then TrackOnly(Event(name, params))
            else TrackThenNavigate(Event(name, params), url.href)
  }

  /** How `gtag` behaves when the event is sent: whether it is defined, how many times it
      calls `event_callback` before returning, and whether it then throws. */
  datatype Gtag = Gtag(present: bool, syncCallbacks: nat, throws: bool)

  /** The state of a same-tab click after `preventDefault`: `sendEvent`'s `finished` flag,
      the handler's `navigated` flag, which callbacks are still scheduled, and how many
      times `done` ran and the page navigated. */
  datatype Latch = Latch(
    finished: bool, navigated: bool,
    callbackArmed: bool, finishTimerArmed: bool,
    doneCalls: nat, navigations: nat)

  /** The handler's `done`: navigate unless already navigated. */
  function Done(s: Latch): (r: Latch)
    ensures r.doneCalls == s.doneCalls + 1 && r.navigated
    ensures r.navigations == if s.navigated then s.navigations else s.navigations + 1
  {
    var s := s.(doneCalls := s.doneCalls + 1);
    if s.navigated then s else s.(navigated := true, navigations := s.navigations + 1)
  }

  /** `finishOnce`: call `done` unless already finished. */
  function FinishOnce(s: Latch): (r: Latch)
    ensures r.finished
    ensures r.doneCalls == if s.finished then s.doneCalls else s.doneCalls + 1
  {
    if s.finished then s else Done(s.(finished := true))
  }

  /** The 1100 ms fallback timer: navigate unless already navigated. */
  function NavTimer(s: Latch): (r: Latch)
    ensures r.navigated && r.doneCalls == s.doneCalls
    ensures r.navigations == if s.navigated then s.navigations else s.navigations + 1
  {
    if s.navigated then s else s.(navigated := true, navigations := s.navigations + 1)
  }

  function FinishRepeatedly(s: Latch, n: nat): (r: Latch)
    ensures r.navigated == (s.navigated || (n > 0 && !s.finished))
    ensures r.finished == (s.finished || n > 0)
    ensures r.callbackArmed == s.callbackArmed && r.finishTimerArmed == s.finishTimerArmed
    ensures r.doneCalls == if n > 0 && !s.finished then s.doneCalls + 1 else s.doneCalls
    ensures r.navigations == if n > 0 && !s.finished && !s.navigated then s.navigations + 1 else s.navigations
    decreases n
  {
    if n == 0 then s else FinishRepeatedly(FinishOnce(s), n - 1)
  }

  /** The synchronous part: `sendEvent(name, params, done)` and the scheduling of the
      fallback timer. Without `gtag`, `done` runs at once. With it, `gtag` may call the
      callback before returning; if it then throws, the `catch` calls `done` directly and
      the 900 ms timer is never scheduled. */
  function Start(g: Gtag): Latch
  {
    var s := Latch(false, false, false, false, 0, 0);
    if !g.present then Done(s)
    else
      var s := FinishRepeatedly(s.(callbackArmed := true), g.syncCallbacks);
      if g.throws then Done(s) else s.(finishTimerArmed := true)
  }

  /** The asynchronous events that may follow, in any order and any number of times. */
  datatype Tick = GtagCallback | FinishTimer | FallbackTimer

  function Step(s: Latch, t: Tick): Latch
  {
    match t
    case GtagCallback => if s.callbackArmed then FinishOnce(s) else s
    case FinishTimer => if s.finishTimerArmed then FinishOnce(s) else s
    case FallbackTimer => NavTimer(s)
  }

  function Run(s: Latch, ticks: seq<Tick>): Latch
    decreases |ticks|
  {
    if ticks == [] then s else Run(Step(s, ticks[0]), ticks[1..])
  }

  /** `navigated` is set exactly when one navigation has happened. */
  predicate NavigatedOnce(s: Latch)
  {
    s.navigations == if s.navigated then 1 else 0
  }

  /** `done` has run at most once, counting a `finishOnce` that could still fire. */
  predicate DoneAtMostOnce(s: Latch)
  {
    s.doneCalls + (if !s.finished && (s.callbackArmed || s.finishTimerArmed) then 1 else 0) <= 1
  }

  lemma StepKeeps(s: Latch, t: Tick)
    ensures NavigatedOnce(s) ==> NavigatedOnce(Step(s, t))
    ensures DoneAtMostOnce(s) ==> DoneAtMostOnce(Step(s, t))
    ensures s.navigated ==> Step(s, t).navigated
    ensures Step(s, t).callbackArmed == s.callbackArmed && Step(s, t).finishTimerArmed == s.finishTimerArmed
  {
  }

  lemma {:induction false} RunKeeps(s: Latch, ticks: seq<Tick>)
    ensures NavigatedOnce(s) ==> NavigatedOnce(Run(s, ticks))
    ensures DoneAtMostOnce(s) ==> DoneAtMostOnce(Run(s, ticks))
    ensures s.navigated ==> Run(s, ticks).navigated
    decreases |ticks|
  {
    if ticks != [] {
      StepKeeps(s, ticks[0]);
      RunKeeps(Step(s, ticks[0]), ticks[1..]);
    }
  }

  /** The page navigates at most once, whatever `gtag` does and however the callback and
      the two timers interleave. */
  lemma NavigatesAtMostOnce(g: Gtag, ticks: seq<Tick>)
    ensures Run(Start(g), ticks).navigations <= 1
  {
    RunKeeps(Start(g), ticks);
  }

  /** `done` runs at most once unless `gtag` throws. */
  lemma DoneRunsAtMostOnce(g: Gtag, ticks: seq<Tick>)
    requires !g.throws
    ensures Run(Start(g), ticks).doneCalls <= 1
  {
    RunKeeps(Start(g), ticks);
  }

  /** When `gtag` calls the callback and then throws, `done` runs twice: once through
      `finishOnce` and once from the `catch`. The `navigated` flag still stops the second
      navigation. */
  lemma DoneTwiceWhenGtagThrows()
    ensures var s := Start(Gtag(true, 1, true));
            s.doneCalls == 2 && s.navigations == 1
  {
  }

  /** Once the fallback timer has fired, the page has navigated. */
  lemma {:induction false} FallbackTimerNavigates(g: Gtag, ticks: seq<Tick>)
    requires FallbackTimer in ticks
    ensures Run(Start(g), ticks).navigated && Run(Start(g), ticks).navigations == 1
  {
    RunKeeps(Start(g), ticks);
    FallbackTimerNavigatesFrom(Start(g), ticks);
  }

  lemma {:induction false} FallbackTimerNavigatesFrom(s: Latch, ticks: seq<Tick>)
    requires FallbackTimer in ticks
    ensures Run(s, ticks).navigated
    decreases |ticks|
  {
    if ticks[0] == FallbackTimer {
      RunKeeps(Step(s, ticks[0]), ticks[1..]);
    } else {
      assert FallbackTimer in ticks[1..];
      FallbackTimerNavigatesFrom(Step(s, ticks[0]), ticks[1..]);
    }
  }

  /** The pages the handler itself opens after a click, given how `gtag` behaves and how
      the callback and timers then fire: the destination once per navigation of the latch
      for a same-tab click, nothing otherwise (the browser follows the link on its own). */
  function Visits(d: Decision, g: Gtag, ticks: seq<Tick>): seq<string>
  {
    if d.TrackThenNavigate? then seq(Run(Start(g), ticks).navigations, _ => d.dest) else []
  }

  /** End to end: the handler opens at most one page, only for a same-tab unmodified click
      on a tracked link, and that page is the link's resolved URL; once the fallback timer
      has fired it has opened it. */
  lemma ClickOpensLinkAtMostOnce(ev: Click, anchor: Option<Anchor>, resolved: Option<Url>, page: Page, g: Gtag, ticks: seq<Tick>)
    ensures var v := Visits(HandleClick(ev, anchor, resolved, page), g, ticks);
            |v| <= 1
    ensures var v := Visits(HandleClick(ev, anchor, resolved, page), g, ticks);
            v != [] ==> !IsModifiedClick(ev) && EventName(resolved).Some? && v == [resolved.value.href]
    ensures var d := HandleClick(ev, anchor, resolved, page);
            d.TrackThenNavigate? && FallbackTimer in ticks ==> Visits(d, g, ticks) == [resolved.value.href]
  {
    var d := HandleClick(ev, anchor, resolved, page);
    if d.TrackThenNavigate? {
      NavigatesAtMostOnce(g, ticks);
      if FallbackTimer in ticks {
        FallbackTimerNavigates(g, ticks);
      }
    }
  }
}
