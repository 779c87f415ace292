# Mindo Bird Watching site — Dafny model of its decision logic

The site is a static site with a few Cloudflare Pages Functions and browser scripts. Below the
DOM wiring and `fetch` plumbing sit small decision and text-shaping functions. This project
models those functions as pure Dafny functions over immutable data and proves what they
promise. Network answers, the cache, the clock and the DOM `<head>` are explicit inputs.

- **Booking form gatekeeper** (`functions/api/book-tour/index.js`, and the older
  `functions/api/book-tour.js`). `BookTour.OnRequest` and `BookTourLegacy.OnRequest` are
  total functions of four inputs: the request, the configuration, the clock reading, and the
  answers the Turnstile verifier and the Apps Script upstream would give. Each returns the
  outcome together with the verifier and upstream calls it made. From that record, "the
  upstream is never contacted" can be stated directly. The older handler lets exceptions
  escape; those show up as the outcome `Thrown`.
- **The iframe reply message** (`IframeReply`). This covers backslash, quote and line-feed
  escaping, and the newer handler's 800-character cap on the escaped text.
- **Reviews endpoints** (`functions/api/reviews.js`, `functions/api/review.js`). Places JSON
  is a generic `Json` value. JavaScript's `?.`, `||`, `??` and `typeof … === "number"` are
  written out in `Json`. Each handler maps (configuration, cache map, upstream answer) to
  (response, new cache, whether it fetched).
- **Active navigation link** (`assets/js/site.js`). This is trailing-slash normalisation plus
  marking the matching links.
- **Public head script** (`assets/js/head.js`). Keyed upserts (`Dom.Upsert`) over a `<head>`
  modelled as a sequence of elements. The Open Graph defaults are set only when absent.
- **Admin head script** (`admin/assets/js/head.js`) covers two things:
  - the insert-if-absent `addLink`, `addMeta` and `addScript`, plus the versioned header
    stylesheet;
  - click tracking: URL classification, `safeText`, the event choice, and the
    `finishOnce`/`navigated` latches. These are modelled as a state machine over arbitrary
    interleavings of the gtag callback and the two timers.

Points worth knowing that the proofs make precise:

- The newer handler caps the message after escaping it. For
  `"a" * 799 + "\""` the cap keeps a lone trailing backslash, so the page's string literal is
  cut mid-escape (`IframeReply.CapCanSplitEscape`). The handler's own replies can never be
  that long, provided the upstream status has at most three digits and the joined error codes
  have at most 375 characters (`BookTour.RepliesAreNeverCut`). So the cut cannot happen with
  the messages the handler actually produces.
- The older upstream test (`status:"ok"` only) accepts strictly fewer replies than the newer
  one, so every older pass-through is a newer pass-through (`BookTourLegacy.PassThroughRefines`).
- The WhatsApp host test is a plain suffix test. Any host ending in the letters
  `whatsapp.com` counts, such as `notwhatsapp.com`. The Experience Ecuador test requires a dot
  boundary.
- Suppose `gtag` calls the event callback synchronously and then throws. Then `done` runs
  twice: once through `finishOnce` and once from the `catch`. The handler's `navigated` flag
  still keeps navigation to one.

## Model

| member | source | states |
|---|---|---|
| Text.Trim | functions/api/book-tour/index.js:64 | `trim`: the result is the input with only white space removed at both ends, and it neither starts nor ends with white space |
| Text.TrimAllWhitespace | functions/api/book-tour/index.js:64 | a string trims to empty exactly when it is all white space (the honeypot test) |
| Text.Collapse | functions/api/book-tour/index.js:137-139 | `replace(/\s+/g, " ")`: never longer, empty iff the input is, starts with white space iff the input does, and has no two neighbouring white-space characters |
| Text.CollapseIsRunwise | functions/api/book-tour/index.js:137-139 | collapsing equals the run-wise reference definition, in which each visible character is kept and each maximal white-space run becomes exactly one space |
| Text.CollapseKeepsVisible | functions/api/book-tour/index.js:137-139 | collapsing keeps every visible character in order |
| Text.CollapseIdempotent | functions/api/book-tour/index.js:137-139 | collapsing an already collapsed string changes nothing |
| Text.TrimKeepsVisible | admin/assets/js/head.js:115 | trimming drops white space only |
| Text.Take | functions/api/book-tour/index.js:22 | `slice(0, n)`: a prefix of length `min(n, |s|)` |
| Text.NatToStringRoundTrip | functions/api/book-tour/index.js:142 | the decimal rendering of a status reads back as the same number |
| Text.NatToString | functions/api/book-tour/index.js:142 | the decimal rendering is all digits without a leading zero (except for 0 itself), one digit exactly below 10, at most three below 1000 |
| IframeReply.ChainIsCharwise | functions/api/book-tour/index.js:18-21 | the three chained global replaces equal one per-character escape |
| IframeReply.Escape | functions/api/book-tour/index.js:18-21 | the message escape is the per-character escape, so it never shortens a message and at most doubles it |
| IframeReply.EscapeRoundTrip | functions/api/book-tour/index.js:18-21 | un-escaping the escaped message gives the message with line feeds as spaces; without carriage returns the escape is a well-formed string-literal body |
| IframeReply.CappedMessage | functions/api/book-tour/index.js:18-22 | at most 800 characters, a prefix of the escape, and it round-trips whenever the escape fits |
| IframeReply.LoneTrailingBackslash | functions/api/book-tour/index.js:18-22 | a body ending in an unpaired backslash is not a well-formed literal body |
| IframeReply.CapCanSplitEscape | functions/api/book-tour/index.js:18-22 | 799 letters followed by a quote escape to 801 characters, and the 800-character cap leaves an ill-formed body |
| BookTourForm.FormGet | functions/api/book-tour/index.js:64-75 | `formData.get(k)`: the value of the first entry with key `k`, none when no entry has it |
| BookTourForm.ForwardBody | functions/api/book-tour/index.js:101-105 | the forwarded entries never carry a control key, and every other entry keeps its multiplicity |
| BookTourForm.ForwardBodyAppend | functions/api/book-tour/index.js:101-105 | the filter works entry by entry, so order is kept: filtering a concatenation concatenates the filtered parts |
| BookTourForm.ForwardBodySingle | functions/api/book-tour/index.js:103 | a single entry is dropped exactly when its key is `cf-turnstile-response`, `website` or `ts_start` |
| BookTourForm.HoneypotFilledIffVisible | functions/api/book-tour/index.js:64-66 | the honeypot counts as filled exactly when the field exists and holds a visible character; missing or all-white-space lets the submission through |
| BookTourForm.Token | functions/api/book-tour/index.js:75-76 | the token is the form's `cf-turnstile-response` value, and there is none when that field is missing or empty |
| BookTourForm.FormContentTypeAnywhere | functions/api/book-tour/index.js:50-53 | either form encoding name anywhere in the header, with any parameters around it, makes the request a form |
| BookTour.Preview | functions/api/book-tour/index.js:137-139 | the preview is exactly the first 220 characters (or all) of the text with each white-space run replaced by one space; it has no double white space and keeps all visible characters unless it was cut |
| BookTour.FailureMessage | functions/api/book-tour/index.js:140-143 | the upstream failure message is the fixed prefix, then the status in decimal, which reads back as the status, then `. Response preview: ` and the preview |
| BookTour.MarkerAnywherePasses | functions/api/book-tour/index.js:124-134 | a 2xx answer with any success marker anywhere in its text is a success |
| BookTour.VerifyFailure | functions/api/book-tour/index.js:95-97 | the error codes, comma-joined, appear in the message when they join to a non-empty string; the plain message is used otherwise, including for an empty code list |
| BookTour.OnRequest | functions/api/book-tour/index.js:10-153 | non-POST gets 405 and nothing else happens; the config, content-type, unreadable-form, honeypot, timing and missing-token rejections in that order, each with its exact reply and none of them contacting the verifier or upstream; an unreachable verifier and an unreachable upstream each give their fixed error; the verifier is called iff every gate passes, with the secret, the token and the client IP; the upstream is called iff the verifier approves, with the filtered form; pass-through iff the upstream reply is 2xx with an ok marker, else the status and preview message |
| BookTour.FailureMessageLength | functions/api/book-tour/index.js:140-143 | the upstream failure message is at most 275 characters for a status below 1000 |
| BookTour.VerifyFailureLength | functions/api/book-tour/index.js:95-97 | the verifier failure message is at most 400 characters when the joined codes are at most 375 |
| BookTour.ShortFixedMessages | functions/api/book-tour/index.js:47-92 | every fixed message the handler replies with is at most 60 characters |
| BookTour.RepliesAreNeverCut | functions/api/book-tour/index.js:17-22 | under those bounds every reply's escaped message fits in 800 characters and round-trips |
| BookTour.ReplyMessagesAreShort | functions/api/book-tour/index.js:17-22 | with a realistic status and a short code list, every reply message has at most 400 characters |
| BookTourLegacy.OnRequest | functions/api/book-tour.js:1-108 | 405 for non-POST; an invalid content type, the honeypot, timing and token rejections with their exact replies and without contacting anyone; an unreachable upstream gives its fixed error; an unreadable form, an unreachable verifier or a null verifier answer escape as exceptions; `success` false gives the fixed failure; forward iff approved; pass-through iff 2xx and `status:"ok"` |
| BookTourLegacy.PageMessage | functions/api/book-tour.js:8-12 | the uncapped escape round-trips to the message with line feeds as spaces and is a well-formed body without carriage returns |
| BookTourLegacy.UpstreamOkRefines | functions/api/book-tour.js:101 | every reply the older handler accepts, the newer one accepts too |
| BookTourLegacy.UpstreamOkStrictlyWeaker | functions/api/book-tour/index.js:124-134 | a 200 reply of `ok` passes the newer test and fails the older one |
| BookTourLegacy.PassThroughRefines | functions/api/book-tour.js:101-108 | with configuration present, whenever the older handler passes the upstream reply through, the newer handler produces the identical result and calls |
| BookTourLegacy.HoneypotAgrees | functions/api/book-tour.js:41-44 | with configuration present, a parsed form with a filled honeypot gets the same answer and the same (absent) calls from both handlers |
| Reviews.NormalizeReview | functions/api/reviews.js:83-90 | the author is never empty (default `Google user`); the other strings are the upstream value when truthy and `""` otherwise; the rating is the upstream value exactly when it is a number, else null |
| Reviews.Normalize | functions/api/reviews.js:71-92 | name and maps URL default to `""`; rating and review count are the upstream numbers or null; the reviews list has the upstream array's length, each entry normalised in place, and is empty when there is no array |
| Reviews.SuccessCacheControl | functions/api/reviews.js:95-97 | the success header is `public, max-age=0, s-maxage=1800` |
| Reviews.OnRequestGet | functions/api/reviews.js:2-99 | missing config gives 500 without touching cache or upstream; a cache hit is returned unchanged without fetching; a fetch happens exactly on a miss; only a success is stored, under the request URL; a non-2xx answer gives 502 `google_api_error` with the status and the parsed body or the first 2000 characters; an empty or unparsable body gives 502 `parse_error` whose detail is the first 2000 characters of the text; the non-JSON error fallback is also the first 2000 characters |
| Reviews.SecondRequestIsCached | functions/api/reviews.js:20-21 | after a successful miss, the same request is answered from the cache with the same response and no fetch |
| Reviews.FailureIsNotCached | functions/api/reviews.js:46-69 | after a failed miss, the next request fetches again |
| Review.CacheKey | functions/api/review.js:12 | the key is the fixed prefix followed by the place id |
| Review.CacheKeyInjective | functions/api/review.js:12 | as strings, two place ids give the same key exactly when they are equal |
| Review.NormalizeReview | functions/api/review.js:55-63 | author name, author link, publish time, relative time, text and language are each the upstream value when truthy and `""` otherwise; the rating passes through any non-nullish value and is null otherwise |
| Review.Normalize | functions/api/review.js:50-64 | the place name is the upstream name when truthy and `Mindo Bird Watching` otherwise; the maps link is the upstream link when truthy and null otherwise; rating and count pass through non-nullish values; the reviews keep the upstream array's length |
| Review.AgreesWithCurrentEndpoint | functions/api/review.js:50-64 | on the same Places data both endpoints give the same truthy name, maps link and review list; rating and count agree exactly when the upstream value is nullish or a number |
| Review.OnRequestGet | functions/api/review.js:1-13 | `caches` comes from the context argument: missing env gives 500 without fetching; otherwise a context without `caches` throws before any fetch or cache change, and a context with it is served as below |
| Review.Serve | functions/api/review.js:5-76 | missing env gives 500 untouched; a hit under the place key returns the stored response; a non-2xx answer gives 502 with the upstream text and leaves the cache; a success is stored under the place key with `s-maxage=21600`; an unreachable upstream or unparsable success escapes |
| Review.SamePlaceSharesEntry | functions/api/review.js:12-17 | after a successful miss, any request for the same place hits the cache |
| Review.OtherPlacesUntouched | functions/api/review.js:12 | a request never changes the entry of another place |
| ActiveNav.StripTrailingSlashes | assets/js/site.js:2-6 | `replace(/\/+$/, "")`: a prefix of the input, only slashes removed, and the result does not end in a slash |
| ActiveNav.StripTrailingSlashesUnique | assets/js/site.js:2-6 | that description determines the result uniquely |
| ActiveNav.Norm | assets/js/site.js:2-6 | the path without its trailing slashes, or `/` exactly when nothing but slashes was given |
| ActiveNav.NormIdempotent | assets/js/site.js:2-6 | normalising twice is normalising once |
| ActiveNav.NormIgnoresTrailingSlash | assets/js/site.js:2-6 | an extra trailing slash makes no difference |
| ActiveNav.PagePath | assets/js/site.js:2 | the `|| "/"` fallback for an empty pathname agrees with plain normalisation |
| ActiveNav.MarkActive | assets/js/site.js:5-8 | links keep their order and href; a link ends up active iff its normalised href equals the path or it already was; non-matching links are untouched; only `active` is ever added |
| ActiveNav.MarkActiveIdempotent | assets/js/site.js:5-8 | running the script twice equals running it once |
| ActiveNav.MissingHrefMatchesHome | assets/js/site.js:6 | a link without href, or with an empty one, is active on the home page |
| Dom.Find | assets/js/head.js:17 | `querySelector`: the first matching element, none iff no element matches |
| Dom.FindExtends | admin/assets/js/head.js:15 | appending elements never changes which element a selector finds first |
| Dom.Upsert | assets/js/head.js:16-24 | the first match gets the attribute set, or one element with the selector's attributes and the value is appended; nothing else changes |
| Dom.UpsertFinds | assets/js/head.js:16-24 | afterwards the selector finds exactly the upserted element |
| Dom.UpsertIdempotent | assets/js/head.js:16-40 | upserting twice equals upserting once |
| Dom.UpsertPreserves | assets/js/head.js:16-24 | an upsert keeps the first match of an unrelated selector where it was and unchanged |
| Dom.UpsertKeepsFirst | assets/js/head.js:16-24 | whatever an upsert targets, the first match of a selector not naming the written attribute stays first and keeps its tag and every other attribute |
| SiteHead.UpsertMeta | assets/js/head.js:16-24 | appends nothing when the key exists, otherwise exactly one element; afterwards the first keyed meta has the content and every other element is unchanged |
| SiteHead.UpsertMetaIdempotent | assets/js/head.js:16-24 | repeating an upsert of a meta changes nothing |
| SiteHead.UpsertMetaKeepsOtherValue | assets/js/head.js:16-24 | upserting one key value keeps the first meta of any other value in place and unchanged |
| SiteHead.LinkSelector | assets/js/head.js:27-29 | the link key is `rel`, plus `sizes` and `type` exactly when they are supplied |
| SiteHead.UpsertLink | assets/js/head.js:26-40 | at most one element is appended; afterwards the first keyed link has the href and every other element is unchanged |
| SiteHead.UpsertLinkIdempotent | assets/js/head.js:26-40 | repeating a link upsert changes nothing |
| SiteHead.UpsertLinkKept | assets/js/head.js:26-40 | a link upsert keeps the first link of any other `rel` in place and unchanged |
| SiteHead.UpsertMetaKept | assets/js/head.js:16-24 | a meta upsert keeps the first match of any selector whose element it does not target |
| SiteHead.SvgUpsertKeepsIco | assets/js/head.js:43-44 | after the SVG icon upsert the `.ico` link is still first and still points at `/favicon.ico`, unless the page's own link matches both selectors and was rewritten |
| SiteHead.Icons | assets/js/head.js:43-46 | the `.ico`, SVG, Apple touch icon and manifest links are present with their root paths (the `.ico` caveat above), and only `<meta>`/`<link>` elements are touched |
| SiteHead.SetMetaIfAbsent | assets/js/head.js:60-70 | an existing property leaves the head as it is; otherwise one meta with the property and content is appended, and it is the first match for that property |
| SiteHead.KeepsOtherProperty | assets/js/head.js:60-70 | filling in one property keeps the first element of every other property in place and unchanged |
| SiteHead.Colors | assets/js/head.js:49-50 | `theme-color` and `msapplication-TileColor` both carry the theme colour afterwards, and the icon links are kept |
| SiteHead.PropertyUpsertKeepsTheme | assets/js/head.js:16-24 | a `property` upsert keeps a theme colour, except on a named meta that also carries a property |
| SiteHead.OgBase | assets/js/head.js:52-57 | `og:site_name`, `og:type` and `og:url` carry the site name, `website` and the canonical URL afterwards, and the icons and theme colours are kept |
| SiteHead.OgDefaults | assets/js/head.js:59-70 | title, description and image are present afterwards; where the page had none, `og:title` carries the document title (the site name when that is empty), `og:description` "Private birding tours in Mindo, Ecuador." and `og:image` `/assets/images/og/og-default-1200x630.jpg`; a page's own element for any of them stays first and unchanged |
| SiteHead.DefaultsWrite | assets/js/head.js:59-70 | the three fill-ins in order write every default the page lacked; a later fill-in leaves an earlier one's element alone |
| SiteHead.SetMetaIfAbsentAddsNoOther | assets/js/head.js:60-70 | filling in one property creates no element for another property |
| SiteHead.PhasesAddNoDefault | assets/js/head.js:43-57 | the icon, colour and site-wide phases create no `meta[property]` other than `og:site_name`, `og:type` and `og:url`, so whether a default is written depends only on the page's own head |
| SiteHead.OgImageSizeKeepsDefaults | assets/js/head.js:71-72 | forcing the image size keeps every default written before it |
| SiteHead.PhasesWriteDefaults | assets/js/head.js:43-72 | over the whole run, each of title, description and image that the page lacked ends up with its default |
| SiteHead.OgImageSize | assets/js/head.js:71-72 | image width and height are forced to `1200` and `630` |
| SiteHead.OgImageSizeKeeps | assets/js/head.js:71-72 | forcing the size keeps every other property present, with the same first element |
| SiteHead.OgImageSizeKeepsFacts | assets/js/head.js:71-72 | forcing the size keeps the icons, theme colours and site-wide Open Graph values |
| SiteHead.Script | assets/js/head.js:43-72 | on an existing head: the icon links, both theme colours, `og:site_name`, `og:type`, `og:url`, title, description, image and the 1200 by 630 size are all in place; a title, description or image the page lacked carries its default (document title or site name, the fixed description, the default image); and only `<meta>`/`<link>` elements were touched |
| SiteHead.Boot | assets/js/head.js:5-72 | no head means no change; otherwise the head only grows, no element other than a `<meta>` or `<link>` changes, and everything the script injects is in place: icons, manifest, theme colours, the site-wide Open Graph values, a title, description and image (the defaults wherever the page had none) and the 1200 by 630 size |
| AdminHead.SetAll | admin/assets/js/head.js:14 | `Object.entries(extra).forEach(setAttribute)`: the keys are the old keys plus the extras'; untouched keys keep their values; for each key the last extra entry wins |
| AdminHead.AddLink | admin/assets/js/head.js:6-16 | no change for an empty href or an existing (rel, href) link; otherwise exactly one link is appended whose attributes are `rel`, `href` and the extras, with the last extra value for each key, and `rel`/`href` unless an extra overrides them; it is then found unless the extras rename it |
| AdminHead.AddLinkIdempotent | admin/assets/js/head.js:6-16 | adding the same link twice adds it once when the extras leave rel and href alone |
| AdminHead.AddLinkOverriddenHrefRepeats | admin/assets/js/head.js:6-16 | whenever the extras' last `href` differs from the given one, a second identical call appends a second copy |
| AdminHead.AddMeta | admin/assets/js/head.js:18-30 | keyed on name or property only: an existing one keeps its content, empty content adds nothing, otherwise one meta is appended and is found afterwards |
| AdminHead.AddMetaIdempotent | admin/assets/js/head.js:18-30 | adding the same meta twice adds it once |
| AdminHead.SetScriptAttrs | admin/assets/js/head.js:39-42 | `true` stores the attribute's own name, a value stores its string, `false` and nullish values leave the attribute as it was |
| AdminHead.AddScript | admin/assets/js/head.js:32-45 | empty src gives nothing; an existing src returns that script with no change; otherwise one script is appended at the end carrying `src`, the attributes applied (`true` as the name, a value as its string, `false`/nullish skipped) and no other attribute, and its position is returned |
| AdminHead.AddScriptIdempotent | admin/assets/js/head.js:32-45 | a second call returns the script the first one added and changes nothing |
| AdminHead.FirstHeaderCss | admin/assets/js/head.js:50-52 | the first stylesheet link whose href contains `/assets/css/header.css`, none iff there is no such link |
| AdminHead.InjectHeaderCss | admin/assets/js/head.js:49-61 | the first header stylesheet link is pointed at the versioned URL in place, or, when there is none, a link with exactly `rel="stylesheet"` and the versioned `href` is appended; afterwards the first header link carries exactly that URL and nothing else changes |
| AdminHead.InjectHeaderCssIdempotent | admin/assets/js/head.js:49-61 | injecting twice equals injecting once |
| AdminHead.ApplyAllPresent | admin/assets/js/head.js:6-30 | after a run of insert-if-absent calls, each of them finds its element |
| AdminHead.ApplyAllPresentIsNoop | admin/assets/js/head.js:6-30 | calls whose elements are all present change nothing |
| AdminHead.Boot | admin/assets/js/head.js:63-82 | the original elements stay in place and every link and meta the script adds is present afterwards |
| AdminHead.BootIdempotent | admin/assets/js/head.js:63-82 | loading the script twice on the same head gives the head of loading it once |
| ClickTracking.SafeText | admin/assets/js/head.js:112-119 | exactly the first 120 characters (or all) of the trimmed label with each white-space run replaced by one space; no leading or double white space; empty exactly when the label is all white space |
| ClickTracking.SafeTextKeepsVisible | admin/assets/js/head.js:112-119 | the link text keeps a leading part of the label's visible characters, all of them when the collapsed label fits |
| ClickTracking.ExperienceEcuadorNeedsDot | admin/assets/js/head.js:159-165 | a host that ends in `experienceecuador.com` without a dot before it is rejected |
| ClickTracking.WhatsAppAcceptsLookalikeHost | admin/assets/js/head.js:149-157 | every host ending in the letters `whatsapp.com`, such as `notwhatsapp.com`, is classified as WhatsApp |
| ClickTracking.ClassificationIgnoresCase | admin/assets/js/head.js:149-165 | both URL tests give the same answer after the host and URL are lower-cased |
| ClickTracking.EventName | admin/assets/js/head.js:208-214 | no event iff neither test matches; the WhatsApp event iff the WhatsApp test matches, so it wins when both do |
| ClickTracking.HandleClick | admin/assets/js/head.js:196-247 | ignored iff there is no anchor, an empty href, or no matching test; the event carries the resolved URL, its host and path, the safe link text, and the page's location, path and language; report-only iff the target is `_blank` in any case or the click is modified; otherwise navigate to the resolved URL |
| ClickTracking.RunKeeps | admin/assets/js/head.js:174-247 | every interleaving of callback and timers preserves both latch invariants |
| ClickTracking.NavigatesAtMostOnce | admin/assets/js/head.js:236-247 | the page navigates at most once whatever gtag does and however the callback and timers interleave |
| ClickTracking.DoneRunsAtMostOnce | admin/assets/js/head.js:167-194 | `done` runs at most once when gtag does not throw |
| ClickTracking.DoneTwiceWhenGtagThrows | admin/assets/js/head.js:181-193 | a synchronous callback followed by a throw runs `done` twice but navigates once |
| ClickTracking.FallbackTimerNavigates | admin/assets/js/head.js:243-247 | once the fallback timer has fired, exactly one navigation has happened |
| ClickTracking.ClickOpensLinkAtMostOnce | admin/assets/js/head.js:196-247 | a handled click opens at most one page, only for an unmodified click on a tracked link and only its resolved URL; once the fallback timer fires, a click that tracks then navigates has opened exactly that URL |

## Left out

- Review.CacheKeyInjective: the key is compared as a plain string. `new Request` parses it as a URL, which drops a fragment and percent-encodes, so place ids such as `a b` and `a%20b`, or `x#1` and `x#2`, share one cache entry in the runtime; that normalisation is not modelled.
- Text.Take, IframeReply.CappedMessage, ClickTracking.SafeText, Reviews.OnRequestGet: lengths are counted in Unicode scalar values (Dafny `char`). JavaScript's `length` and `slice` count UTF-16 code units, so for text outside the Basic Multilingual Plane the model keeps up to twice as many code units as the 800, 120, 220 and 2000 caps allow, and it cannot split a surrogate pair as `slice` can.
- BookTour.OnRequest, BookTourLegacy.OnRequest: the request's `tsStart` is an input, not derived from the form's `ts_start` field. `Number(...)` is not modelled: its NaN result is `None`, and fractional or infinite values are outside `Option<int>`.
- SiteHead.Boot: two facts are conditional. A page link that carries both `sizes="any"` and the SVG type is rewritten to `/favicon.svg` by the second upsert, so the `.ico` href is promised only otherwise. A page `meta[name=theme-color]` that also carries a `property` attribute can be rewritten by a later Open Graph upsert, so its theme colour is promised only otherwise.
- `assets/js/includes.js` is not part of this model. It only fetches HTML fragments and injects them.
- Network calls, Turnstile, Google Places, Apps Script and `caches.default` are inputs: the verifier answer, the upstream reply and a `map` from cache key to response.
- `request.formData()`, `JSON.parse` and `new URL` are inputs too: the parsed form, JSON value or resolved URL is given, and parse failure is `None`.
- `Date.now()` is the `now` parameter. Timer durations (900, 1100, 1200 ms) are not modelled; timers are abstract events that may fire in any order.
- Cache TTL expiry is not modelled. The cache map is taken to be the live contents of the edge cache at the time of the request.
- Review.OnRequestGet: `functions/api/review.js` takes `caches` from the handler's context argument (review.js:1). The Pages Functions context has no such property, because the runtime exposes `caches` as a global, so as deployed every configured request throws at `caches.default` (review.js:13). That is the `None` case of the model. The `Some` case (`Review.Serve`) describes the handler as if the context carried the cache.
- BookTourLegacy.OnRequest: the older handler does not check that `TURNSTILE_SECRET_KEY` and `GAS_BOOK_TOUR_URL` are set. A missing value becomes the text `undefined` in the request, which is not modelled. The model also leaves out a failing `upstream.text()`, which would escape as an exception.
- BookTour.OnRequest: a body that fails to read during `upstream.text()` takes the same "unreachable" branch as a failed fetch. The model folds both into `UpstreamUnreachable`.
- Response headers other than the reviews `Cache-Control` values are not modelled, nor are the JSON serialisation of bodies and the surrounding HTML of the iframe page. The message is modelled only as the string-literal body; a `</script>` inside it is not considered.
- Reviews.Normalize, Review.Normalize: fields that the handlers pass through with `||` or `??` are taken as given JSON values. No conversion to strings is modelled for non-string values.
- Selectors are matched as attribute equality on the raw attribute text. CSS quoting of values that contain quotes is not modelled, nor is `l.href` resolving a relative href against the page URL.
- GA4 injection (`injectGA4`), `dataLayer` and `document.documentElement.style` are browser side effects and are left out. `addScript` itself is modelled.
- SiteHead.Boot, SiteHead.OgBase, SiteHead.OgDefaults: `canonical` and `title` are inputs. The script reads `document.title` and computes the canonical URL with a document-wide `querySelector('link[rel="canonical"]')?.href`, the resolved href, falling back to `window.location.href` (assets/js/head.js:53, 61). Neither the document outside `<head>`, nor URL resolution, nor `window.location` is modelled.
- `getLang` and the page's `location` fields are given as a `Page` value. The `try`/`catch` around `safeText` and `handleClick` cannot fire in the model.
- ClickTracking.SafeText: JavaScript's `\s` and `trim` use one fixed set of Unicode white-space characters (`Text.IsWhitespace`).
- ClickTracking.HandleClick, ClickTracking.IsWhatsAppUrl, ClickTracking.IsExperienceEcuadorUrl: `toLowerCase` is modelled on ASCII letters only. Hosts and hrefs from `new URL` are ASCII already, so only the link target can differ: JavaScript lower-cases `"_blan\u212A"` (with the Kelvin sign) to `"_blank"` and opens a new tab, where the model navigates in place.
- AdminHead.Boot: the script reads `document.head` without a check, so on a document without a head it throws at the first lookup (admin/assets/js/head.js:4, 50) before adding anything. The model always takes a head.
