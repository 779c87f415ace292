/** The earlier reviews proxy: one cache entry per place, upstream errors echoed, and
    `??`-based passing of the numeric fields. */
module Review {
  import opened Wrappers
  import opened Text
  import opened Json
  import Reviews

  const DefaultPlaceName: string := "Mindo Bird Watching"
  const CacheKeyPrefix: string := "https://mbw.local/api/reviews?place="

  /** Environment values, the empty string standing for an unset one. */
  datatype Env = Env(placeId: string, apiKey: string)

  datatype ReviewOut = ReviewOut(authorName: Json, authorUri: Json, rating: Json, publishTime: Json,
                                 relativePublishTimeDescription: Json, text: Json, languageCode: Json)

  datatype Out = Out(placeName: Json, rating: Json, userRatingCount: Json, googleMapsUri: Json, reviews: seq<ReviewOut>)

  datatype Body = MissingEnv | UpstreamError(detail: string) | Success(out: Out)

  datatype Response = Response(status: nat, body: Body, cacheControl: Option<string>)

  /** The upstream call: it throws, or yields a status, the body text and `JSON.parse` of
      it (`None` when parsing throws, so that `upstream.json()` rejects). */
  datatype Fetch = Unreachable | Fetched(status: nat, text: string, parsed: Option<Json>)

  datatype Outcome = Respond(response: Response) | Thrown

  datatype Served = Served(outcome: Outcome, cache: map<string, Response>, fetched: bool)

  /** The cache key: the place alone decides it, and different places get different keys. */
  function CacheKey(placeId: string): (k: string)
    ensures |k| == |CacheKeyPrefix| + |placeId| && k[|CacheKeyPrefix|..] == placeId
  {
    CacheKeyPrefix + placeId
  }

  lemma CacheKeyInjective(p: string, q: string)
    ensures CacheKey(p) == CacheKey(q) <==> p == q
  {
    if CacheKey(p) == CacheKey(q) {
      assert p == CacheKey(p)[|CacheKeyPrefix|..];
    }
  }

  function NormalizeReview(r: Json): (o: ReviewOut)
    ensures DefaultedTo(o.authorName, Get(Get(Some(r), "authorAttribution"), "displayName"), JStr(""))
    ensures DefaultedTo(o.authorUri, Get(Get(Some(r), "authorAttribution"), "uri"), JStr(""))
    ensures DefaultedTo(o.publishTime, Get(Some(r), "publishTime"), JStr(""))
    ensures DefaultedTo(o.relativePublishTimeDescription, Get(Some(r), "relativePublishTimeDescription"), JStr(""))
    ensures DefaultedTo(o.text, Get(Get(Some(r), "text"), "text"), JStr(""))
    ensures DefaultedTo(o.languageCode, Get(Get(Some(r), "text"), "languageCode"), JStr(""))
    // `??` keeps every non-null rating, numeric or not.
    ensures !Nullish(Get(Some(r), "rating")) ==> Some(o.rating) == Get(Some(r), "rating")
    ensures Nullish(Get(Some(r), "rating")) ==> o.rating == JNull
  {
    var attribution := Get(Some(r), "authorAttribution");
    var text := Get(Some(r), "text");
    ReviewOut(
      Or(Get(attribution, "displayName"), JStr("")),
      Or(Get(attribution, "uri"), JStr("")),
      Coalesce(Get(Some(r), "rating"), JNull),
      Or(Get(Some(r), "publishTime"), JStr("")),
      Or(Get(Some(r), "relativePublishTimeDescription"), JStr("")),
      Or(Get(text, "text"), JStr("")),
      Or(Get(text, "languageCode"), JStr("")))
  }

  /** The `out` object built from the parsed upstream body. */
  function Normalize(data: Json): (o: Out)
    ensures Truthy(Some(o.placeName))
    ensures DefaultedTo(o.placeName, Get(Get(Some(data), "displayName"), "text"), JStr(DefaultPlaceName))
    ensures !Nullish(Get(Some(data), "rating")) ==> Some(o.rating) == Get(Some(data), "rating")
    ensures Nullish(Get(Some(data), "rating")) ==> o.rating == JNull
    ensures !Nullish(Get(Some(data), "userRatingCount")) ==> Some(o.userRatingCount) == Get(Some(data), "userRatingCount")
    ensures Nullish(Get(Some(data), "userRatingCount")) ==> o.userRatingCount == JNull
    ensures DefaultedTo(o.googleMapsUri, Get(Some(data), "googleMapsUri"), JNull)
    ensures var up := Get(Some(data), "reviews");
            |o.reviews| == (if up.Some? && up.value.JArr? then |up.value.items| else 0)
    ensures var items := ArrayItems(Get(Some(data), "reviews"));
            forall i | 0 <= i < |o.reviews| :: o.reviews[i] == NormalizeReview(items[i])
  {
    var items := ArrayItems(Get(Some(data), "reviews"));
    Out(
      Or(Get(Get(Some(data), "displayName"), "text"), JStr(DefaultPlaceName)),
      Coalesce(Get(Some(data), "rating"), JNull),
      Coalesce(Get(Some(data), "userRatingCount"), JNull),
      Or(Get(Some(data), "googleMapsUri"), JNull),
      seq(|items|, i requires 0 <= i < |items| => NormalizeReview(items[i])))
  }

  /** The earlier and the current endpoint shape the same place alike wherever both read
      a field the same way: truthy names and links, numeric or missing counts, and the
      review fields both default to `""`. They part on a rating that is present but not
      a number, which `??` keeps and `typeof` drops. */
  lemma AgreesWithCurrentEndpoint(data: Json)
    ensures var o := Normalize(data); var n := Reviews.Normalize(data);
            (Truthy(Get(Get(Some(data), "displayName"), "text")) ==> o.placeName == n.name)
            && (Truthy(Get(Some(data), "googleMapsUri")) ==> o.googleMapsUri == n.mapsUrl)
    ensures var o := Normalize(data); var n := Reviews.Normalize(data); var v := Get(Some(data), "rating");
            (Nullish(v) || v.value.JNum? ==> o.rating == n.rating)
            && (!Nullish(v) && !v.value.JNum? ==> o.rating != n.rating)
    ensures var o := Normalize(data); var n := Reviews.Normalize(data); var v := Get(Some(data), "userRatingCount");
            (Nullish(v) || v.value.JNum? ==> o.userRatingCount == n.reviewCount)
            && (!Nullish(v) && !v.value.JNum? ==> o.userRatingCount != n.reviewCount)
    ensures var o := Normalize(data); var n := Reviews.Normalize(data);
            |o.reviews| == |n.reviews|
            && forall i | 0 <= i < |o.reviews| ::
                 ReviewsAgree(ArrayItems(Get(Some(data), "reviews"))[i], o.reviews[i], n.reviews[i])
  {
    var o := Normalize(data);
    var n := Reviews.Normalize(data);
    var items := ArrayItems(Get(Some(data), "reviews"));
    forall i | 0 <= i < |o.reviews| ensures ReviewsAgree(items[i], o.reviews[i], n.reviews[i]) {
      ReviewAgreesWithCurrentEndpoint(items[i]);
    }
  }

  /** One review as both endpoints shape it: the author link, times and text always agree,
      the author name whenever the upstream has one, the rating whenever it is a number or
      missing. */
  predicate ReviewsAgree(r: Json, o: ReviewOut, n: Reviews.ReviewOut)
  {
    && o.authorUri == n.authorUrl && o.text == n.text
    && o.publishTime == n.publishTime && o.relativePublishTimeDescription == n.relativeTime
    && (Truthy(Get(Get(Some(r), "authorAttribution"), "displayName")) ==> o.authorName == n.author)
    && (Nullish(Get(Some(r), "rating")) || Get(Some(r), "rating").value.JNum? ==> o.rating == n.rating)
  }

  lemma ReviewAgreesWithCurrentEndpoint(r: Json)
    ensures ReviewsAgree(r, NormalizeReview(r), Reviews.NormalizeReview(r))
  {
  }

  const SuccessCacheControl: string := "public, max-age=0, s-maxage=21600"

  /** `onRequestGet({ env, caches })`. `caches` is read from the handler's context argument,
      not from the global scope: without it, `caches.default` throws as soon as the
      configuration check has passed, before the upstream is asked. A context without
      `caches` has no cache to change, so the cache component is then empty. */
  function OnRequestGet(env: Env, caches: Option<map<string, Response>>, upstream: Fetch): (r: Served)
    ensures env.placeId == "" || env.apiKey == "" ==>
              r.outcome == Respond(Response(500, MissingEnv, None)) && !r.fetched
    ensures env.placeId != "" && env.apiKey != "" && caches.None? ==> r == Served(Thrown, map[], false)
    ensures r.fetched ==> caches.Some?
    ensures caches.Some? ==> r == Serve(env, caches.value, upstream)
  {
    match caches
    case Some(cache) => Serve(env, cache, upstream)
    case None =>
      if env.placeId == "" || env.apiKey == "" then Served(Respond(Response(500, MissingEnv, None)), map[], false)
      else Served(Thrown, map[], false)
  }

  /** The handler once `caches.default` resolves. The request itself plays no part: only the
      place decides the answer. */
  function Serve(env: Env, cache: map<string, Response>, upstream: Fetch): (r: Served)
    ensures env.placeId == "" || env.apiKey == "" ==> r == Served(Respond(Response(500, MissingEnv, None)), cache, false)
    ensures env.placeId != "" && env.apiKey != "" && CacheKey(env.placeId) in cache
            ==> r == Served(Respond(cache[CacheKey(env.placeId)]), cache, false)
    ensures r.fetched <==> env.placeId != "" && env.apiKey != "" && CacheKey(env.placeId) !in cache
    // A non-2xx upstream: 502 echoing the upstream text; nothing is cached.
    ensures r.fetched && upstream.Fetched? && !(200 <= upstream.status < 300)
            ==> r == Served(Respond(Response(502, UpstreamError(upstream.text), None)), cache, true)
    // Only a success is stored, under the place's key, for six hours at the edge.
    ensures r.cache != cache ==> r.outcome.Respond? && r.outcome.response.body.Success?
                                 && r.cache == cache[CacheKey(env.placeId) := r.outcome.response]
                                 && r.outcome.response.cacheControl == Some(SuccessCacheControl)
    ensures r.fetched && r.outcome.Respond? && r.outcome.response.body.Success?
            ==> r.cache == cache[CacheKey(env.placeId) := r.outcome.response]
    ensures r.fetched && upstream.Fetched? && 200 <= upstream.status < 300 && upstream.parsed.Some?
            ==> r.outcome == Respond(Response(200, Success(Normalize(upstream.parsed.value)), Some(SuccessCacheControl)))
    // A network failure or an unparsable 2xx body is not caught.
    ensures r.fetched && (upstream.Unreachable? || (200 <= upstream.status < 300 && upstream.parsed.None?))
            ==> r == Served(Thrown, cache, true)
  {
    if env.placeId == "" || env.apiKey == "" then Served(Respond(Response(500, MissingEnv, None)), cache, false)
    else
      var key := CacheKey(env.placeId);
      if key in cache then Served(Respond(cache[key]), cache, false)
      else match upstream
        case Unreachable => Served(Thrown, cache, true)
        case Fetched(status, text, parsed) =>
          if !(200 <= status < 300) then Served(Respond(Response(502, UpstreamError(text), None)), cache, true)
          else if parsed.None? then Served(Thrown, cache, true)
          else
            var response := Response(200, Success(Normalize(parsed.value)), Some(SuccessCacheControl));
            Served(Respond(response), cache[key := response], true)
  }

  /** Once a place has been fetched successfully, every later request for it is served from
      the cache with the identical answer. */
  lemma SamePlaceSharesEntry(env: Env, cache: map<string, Response>, first: Fetch, second: Fetch)
    requires var r := Serve(env, cache, first);
             r.fetched && r.outcome.Respond? && r.outcome.response.body.Success?
    ensures var r := Serve(env, cache, first);
            Serve(env, r.cache, second) == Served(r.outcome, r.cache, false)
  {
  }

  /** A fetch for one place never disturbs the cached answer of another. */
  lemma OtherPlacesUntouched(env: Env, other: string, cache: map<string, Response>, upstream: Fetch)
    requires other != env.placeId
    ensures var r := Serve(env, cache, upstream);
            (CacheKey(other) in r.cache <==> CacheKey(other) in cache)
            && (CacheKey(other) in cache ==> r.cache[CacheKey(other)] == cache[CacheKey(other)])
  {
    CacheKeyInjective(other, env.placeId);
  }
}
