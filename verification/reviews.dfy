/** `GET /api/reviews` (the cached Places proxy keyed by request URL): configuration
    check, cache lookup, upstream error staging, and normalisation of the place. */
module Reviews {
  import opened Wrappers
  import opened Text
  import opened Json

  /** Seconds the shared cache may keep a successful answer. */
  const TtlSeconds: nat := 60 * 30

  /** Longest upstream text quoted in an error body. */
  const DetailLength: nat := 2000

  const DefaultAuthor: string := "Google user"

  /** Environment values, the empty string standing for an unset one. */
  datatype Env = Env(placeId: string, apiKey: string)

  /** One review as served: every field defaulted, never `undefined`. */
  datatype ReviewOut = ReviewOut(author: Json, authorUrl: Json, rating: Json, text: Json, relativeTime: Json, publishTime: Json)

  /** The success body (`ok: true`, `source: "places_api_new"`). */
  datatype Normalized = Normalized(name: Json, mapsUrl: Json, rating: Json, reviewCount: Json, reviews: seq<ReviewOut>)

  /** The JSON bodies the handler writes. All but `Success` carry `ok: false`. */
  datatype Body =
    | MissingConfig
    | GoogleApiError(httpStatus: nat, errorBody: Json)
    | ParseError(detail: string)
    | Success(data: Normalized)

  datatype Response = Response(status: nat, body: Body, cacheControl: Option<string>)

  /** The upstream call: it throws, or yields a status, the body text (empty when reading it
      failed) and `JSON.parse` of that text (`None` when parsing throws). */
  datatype Fetch = Unreachable | Fetched(status: nat, text: string, parsed: Option<Json>)

  datatype Outcome = Respond(response: Response) | Thrown

  /** The answer, the cache afterwards, and whether the upstream was called. */
  datatype Served = Served(outcome: Outcome, cache: map<string, Response>, fetched: bool)

  /** `text ? JSON.parse(text) : null`, with a throwing parse caught as `null`. */
  function ParseBody(text: string, parsed: Option<Json>): Option<Json>
  {
    if text == "" then None else parsed
  }

  function NormalizeReview(r: Json): (o: ReviewOut)
    ensures Truthy(Some(o.author))
    ensures DefaultedTo(o.author, Get(Get(Some(r), "authorAttribution"), "displayName"), JStr(DefaultAuthor))
    ensures DefaultedTo(o.authorUrl, Get(Get(Some(r), "authorAttribution"), "uri"), JStr(""))
    ensures DefaultedTo(o.text, Get(Get(Some(r), "text"), "text"), JStr(""))
    ensures DefaultedTo(o.relativeTime, Get(Some(r), "relativePublishTimeDescription"), JStr(""))
    ensures DefaultedTo(o.publishTime, Get(Some(r), "publishTime"), JStr(""))
    ensures o.rating.JNum? || o.rating == JNull
    ensures o.rating.JNum? <==> Get(Some(r), "rating").Some? && Get(Some(r), "rating").value.JNum?
    ensures o.rating.JNum? ==> Some(o.rating) == Get(Some(r), "rating")
  {
    var attribution := Get(Some(r), "authorAttribution");
    ReviewOut(
      Or(Get(attribution, "displayName"), JStr(DefaultAuthor)),
      Or(Get(attribution, "uri"), JStr("")),
      NumberOrNull(Get(Some(r), "rating")),
      Or(Get(Get(Some(r), "text"), "text"), JStr("")),
      Or(Get(Some(r), "relativePublishTimeDescription"), JStr("")),
      Or(Get(Some(r), "publishTime"), JStr("")))
  }

  /** The `normalized` object built from a truthy parsed body. */
  function Normalize(data: Json): (n: Normalized)
    ensures DefaultedTo(n.name, Get(Get(Some(data), "displayName"), "text"), JStr(""))
    ensures DefaultedTo(n.mapsUrl, Get(Some(data), "googleMapsUri"), JStr(""))
    ensures n.rating.JNum? <==> Get(Some(data), "rating").Some? && Get(Some(data), "rating").value.JNum?
    ensures n.rating.JNum? ==> Some(n.rating) == Get(Some(data), "rating")
    ensures !n.rating.JNum? ==> n.rating == JNull
    ensures n.reviewCount.JNum? <==> Get(Some(data), "userRatingCount").Some? && Get(Some(data), "userRatingCount").value.JNum?
    ensures n.reviewCount.JNum? ==> Some(n.reviewCount) == Get(Some(data), "userRatingCount")
    ensures !n.reviewCount.JNum? ==> n.reviewCount == JNull
    // One output review per upstream array element, in order; none without an array.
    ensures var up := Get(Some(data), "reviews");
            |n.reviews| == (if up.Some? && up.value.JArr? then |up.value.items| else 0)
    ensures var items := ArrayItems(Get(Some(data), "reviews"));
            forall i | 0 <= i < |n.reviews| :: n.reviews[i] == NormalizeReview(items[i])
  {
    var items := ArrayItems(Get(Some(data), "reviews"));
    Normalized(
      Or(Get(Get(Some(data), "displayName"), "text"), JStr("")),
      Or(Get(Some(data), "googleMapsUri"), JStr("")),
      NumberOrNull(Get(Some(data), "rating")),
      NumberOrNull(Get(Some(data), "userRatingCount")),
      seq(|items|, i requires 0 <= i < |items| => NormalizeReview(items[i])))
  }

  /** The shared-cache header of a successful answer: thirty minutes at the edge. */
  function SuccessCacheControl(): (h: string)
    ensures h == "public, max-age=0, s-maxage=1800"
  {
    assert NatToString(1) == "1";
    assert NatToString(18) == "18";
    assert NatToString(180) == "180";
    assert NatToString(1800) == "1800";
    "public, max-age=0, s-maxage=" + NatToString(TtlSeconds)
  }

  /** `onRequestGet`: `url` is the request URL, which is also the cache key. */
  function OnRequestGet(env: Env, url: string, cache: map<string, Response>, upstream: Fetch): (r: Served)
    // Without both configuration values: 500, and neither cache nor upstream is touched.
    ensures env.placeId == "" || env.apiKey == ""
            ==> r == Served(Respond(Response(500, MissingConfig, None)), cache, false)
    // A cached answer is returned unchanged without calling the upstream.
    ensures env.placeId != "" && env.apiKey != "" && url in cache ==> r == Served(Respond(cache[url]), cache, false)
    ensures r.fetched <==> env.placeId != "" && env.apiKey != "" && url !in cache
    // Only a successful answer is stored, under the request URL.
    ensures r.cache != cache ==> r.outcome.Respond? && r.outcome.response.body.Success? && r.cache == cache[url := r.outcome.response]
    ensures r.fetched && r.outcome.Respond? && r.outcome.response.body.Success?
            ==> r.cache == cache[url := r.outcome.response] && r.outcome.response.status == 200
                && r.outcome.response.cacheControl == Some("public, max-age=0, s-maxage=1800")
    ensures r.fetched && !(r.outcome.Respond? && r.outcome.response.body.Success?) ==> r.cache == cache
    // A non-2xx upstream answer: 502 staged as a Google API error with the upstream status,
    // quoting the parsed error body or else at most 2000 characters of its text.
    ensures r.fetched && upstream.Fetched? && !(200 <= upstream.status < 300)
            ==> r.outcome.Respond? && r.outcome.response.status == 502 && r.outcome.response.body.GoogleApiError?
                && r.outcome.response.body.httpStatus == upstream.status
                && (Truthy(ParseBody(upstream.text, upstream.parsed)) ==> Some(r.outcome.response.body.errorBody) == upstream.parsed)
                && (!Truthy(ParseBody(upstream.text, upstream.parsed))
                    ==> r.outcome.response.body.errorBody.JStr? && |r.outcome.response.body.errorBody.s| <= DetailLength
                        && |r.outcome.response.body.errorBody.s| <= |upstream.text|
                        && r.outcome.response.body.errorBody.s == upstream.text[..|r.outcome.response.body.errorBody.s|]
                        && r.outcome.response.body.errorBody.s == Take(upstream.text, DetailLength))
    // A 2xx answer that is empty or does not parse to a truthy value: 502 parse error.
    ensures r.fetched && upstream.Fetched? && 200 <= upstream.status < 300 && !Truthy(ParseBody(upstream.text, upstream.parsed))
            ==> r.outcome.Respond? && r.outcome.response.status == 502 && r.outcome.response.body.ParseError?
                && |r.outcome.response.body.detail| <= DetailLength
                && r.outcome.response.body.detail == Take(upstream.text, DetailLength)
    // Otherwise the normalised place is served.
    ensures r.fetched && upstream.Fetched? && 200 <= upstream.status < 300 && Truthy(ParseBody(upstream.text, upstream.parsed))
            ==> r.outcome.Respond? && r.outcome.response.body == Success(Normalize(upstream.parsed.value))
    ensures r.fetched && upstream.Unreachable? ==> r == Served(Thrown, cache, true)
  {
    if env.placeId == "" || env.apiKey == "" then Served(Respond(Response(500, MissingConfig, None)), cache, false)
    else if url in cache then Served(Respond(cache[url]), cache, false)
    else match upstream
      case Unreachable => Served(Thrown, cache, true)
      case Fetched(status, text, parsed) =>
        var data := ParseBody(text, parsed);
        if !(200 <= status < 300) then
          var detail := if Truthy(data) then data.value else JStr(Take(text, DetailLength));
          Served(Respond(Response(502, GoogleApiError(status, detail), None)), cache, true)
        else if !Truthy(data) then
          Served(Respond(Response(502, ParseError(Take(text, DetailLength)), None)), cache, true)
        else
          var response := Response(200, Success(Normalize(data.value)), Some(SuccessCacheControl()));
          Served(Respond(response), cache[url := response], true)
  }

  /** After a successful fetch, asking again for the same URL returns the identical
      answer from the cache, whatever the upstream would now say. */
  lemma SecondRequestIsCached(env: Env, url: string, cache: map<string, Response>, first: Fetch, second: Fetch)
    requires var r := OnRequestGet(env, url, cache, first);
             r.fetched && r.outcome.Respond? && r.outcome.response.body.Success?
    ensures var r := OnRequestGet(env, url, cache, first);
            OnRequestGet(env, url, r.cache, second) == Served(r.outcome, r.cache, false)
  {
  }

  /** A failed fetch leaves nothing behind: the next request goes upstream again. */
  lemma FailureIsNotCached(env: Env, url: string, cache: map<string, Response>, first: Fetch, second: Fetch)
    requires url !in cache
    requires var r := OnRequestGet(env, url, cache, first);
             !(r.outcome.Respond? && r.outcome.response.body.Success?)
    ensures var r := OnRequestGet(env, url, cache, first);
            OnRequestGet(env, url, r.cache, second).fetched == OnRequestGet(env, url, cache, first).fetched
  {
  }
}
