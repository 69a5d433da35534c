/** The `POST /api/whatsapp-photo` handler: it takes a phone number, normalises it to a
    digits-only key with the Brazilian country code, answers from a process-wide cache when it
    can, and otherwise asks the lookup provider once and turns whatever comes back into a
    profile-photo payload, degrading every failure to a constant fallback payload. */
module PhotoLookup {
  import opened Strings

  datatype Option<T> = None | Some(value: T)

  /** The placeholder avatar served whenever no real photo can be shown. */
  const FallbackImageUrl: string := "https://media.istockphoto.com/id/1337144146/vector/default-avatar-profile-icon-vector.jpg?s=612x612&w=0&k=20&c=BIbFwuv7FxTWvh5S3vB6bkT0Qv8Vn8N5Ffseq84ClGI="
  const CountryCode: string := "55"
  /** A stripped number at least this long and without the country code gets it prepended. */
  const MinDigitsForCountryCode: nat := 11
  /** The provider answers with a URL containing this for a private photo. */
  const PrivatePhotoMarker: string := "g.gif"
  /** The lookup URL is this followed by the normalised number. */
  const ApiBaseUrl: string := "https://whatsapp-data1.p.rapidapi.com/number/"
  const PhoneRequiredMessage: string := "Número de telefone é obrigatório"

  /** The JSON body `{ success, result, is_photo_private }`. */
  datatype Payload = Payload(success: bool, result: string, isPhotoPrivate: bool)

  const FallbackPayload: Payload := Payload(true, FallbackImageUrl, true)

  datatype Body =
    | PhotoBody(payload: Payload)
    | ErrorBody(success: bool, error: string)  // `{ success: false, error }`
    | EmptyBody                                 // `new NextResponse(null, ...)`

  datatype Response = Response(status: int, body: Body, headers: map<string, string>)

  const AllowOrigin: map<string, string> := map["Access-Control-Allow-Origin" := "*"]

  /** A response carrying only the fallback payload, with no CORS header. */
  const Degraded: Response := Response(200, PhotoBody(FallbackPayload), map[])

  /** The one client error: the phone number is missing. */
  const Rejected: Response := Response(400, ErrorBody(false, PhoneRequiredMessage), map[])

  /** The `phone` property of the request's JSON body, as far as the handler can tell it apart:
      absent, a string, or another JSON value that JavaScript finds truthy or falsy. */
  datatype PhoneField = Absent | Text(s: string) | NonText(truthy: bool)

  /** The request body: `Unreadable` when `request.json()` rejects or the body cannot be
      destructured (JSON `null`). */
  datatype Request = Unreadable | Json(phone: PhoneField)

  /** `data?.result` in the provider's JSON answer: missing or falsy but not a string (`undefined`,
      `null`, `0`, `false`), a string, or a truthy value that is not a string and has no
      `includes` (an array is not modelled). */
  datatype ResultField = NoResult | ResultText(url: string) | ResultOther

  datatype ApiJson = Malformed | ApiData(result: ResultField)

  /** What the single call to the provider produced: `fetch` threw (timeout, abort, network),
      or an HTTP response with its status and its body read as JSON. */
  datatype Upstream = TransportFailure | ApiResponse(status: int, json: ApiJson)

  /** `!phone` is false */
  predicate IsTruthy(p: PhoneField) {
    match p
    case Absent => false
    case Text(s) => s != ""
    case NonText(truthy) => truthy
  }

  /** `response.ok` */
  predicate IsOk(status: int) {
    200 <= status <= 299
  }

  /** The cache key and lookup number for a raw phone string. */
  function Normalize(raw: string): (key: string)
    ensures IsDigits(key)
    ensures key == StripNonDigits(raw) || key == CountryCode + StripNonDigits(raw)
    ensures key == CountryCode + StripNonDigits(raw) <==>
      !StartsWith(StripNonDigits(raw), CountryCode) && |StripNonDigits(raw)| >= MinDigitsForCountryCode
    ensures StartsWith(key, CountryCode) || |key| < MinDigitsForCountryCode
  {
    var clean := StripNonDigits(raw);
    if !StartsWith(clean, CountryCode) && |clean| >= MinDigitsForCountryCode then CountryCode + clean
    else clean
  }

  /** `key` is its own normal form. */
  predicate IsNormalKey(key: string) {
    Normalize(key) == key
  }

  /** Normalising twice is normalising once. */
  lemma NormalizeIdempotent(raw: string)
    ensures IsNormalKey(Normalize(raw))
  {
    var key := Normalize(raw);
    assert StripNonDigits(key) == key;
  }

  /** The provider's answer for a private or missing photo: no URL, or the sentinel image. */
  predicate IsPrivateUrl(url: string) {
    url == "" || Contains(url, PrivatePhotoMarker)
  }

  /** A payload the handler may serve with status 200: a success with a usable image, which
      is the fallback image exactly when the photo is private. */
  predicate IsServable(p: Payload) {
    p.success && |p.result| > 0 &&
    (p.isPhotoPrivate ==> p.result == FallbackImageUrl) &&
    (!p.isPhotoPrivate ==> !IsPrivateUrl(p.result))
  }

  /** The payload made from the provider's `result` field, or `None` when inspecting the field
      throws (a truthy non-string value has no `includes`). */
  function Interpret(field: ResultField): (p: Option<Payload>)
    ensures p.None? <==> field.ResultOther?
    ensures p.Some? ==> IsServable(p.value)
    ensures field.NoResult? ==> p == Some(FallbackPayload)
    ensures field.ResultText? ==>
      p.Some? &&
      (p.value.isPhotoPrivate <==> IsPrivateUrl(field.url)) &&
      (p.value.isPhotoPrivate ==> p.value.result == FallbackImageUrl) &&
      (!p.value.isPhotoPrivate ==> p.value.result == field.url)
  {
    match field
    case NoResult => Some(FallbackPayload)
    case ResultOther => None
    case ResultText(url) =>
      var isPhotoPrivate := IsPrivateUrl(url);
      Some(Payload(true, if isPhotoPrivate then FallbackImageUrl else url, isPhotoPrivate))
  }

  /** The payload the provider's answer resolves to, or `None` when the answer cannot be used. */
  function FromUpstream(u: Upstream): Option<Payload> {
    match u
    case TransportFailure => None
    case ApiResponse(status, json) =>
      if !IsOk(status) then None
      else match json
        case Malformed => None
        case ApiData(field) => Interpret(field)
  }

  /** One request's effect: the response, the cache afterwards, and the URL the provider was
      asked for (`None` when it was not called). */
  datatype Outcome = Outcome(response: Response, cache: map<string, Payload>, fetched: Option<string>)

  /** The handler as a function of the cache, the request and the provider's answer. */
  function Resolve(cache: map<string, Payload>, request: Request, upstream: Upstream): Outcome {
    match request
    case Unreadable => Outcome(Degraded, cache, None)
    case Json(phone) =>
      if !IsTruthy(phone) then Outcome(Rejected, cache, None)
      else if !phone.Text? then Outcome(Degraded, cache, None)
      else
        var key := Normalize(phone.s);
        if key in cache then Outcome(Response(200, PhotoBody(cache[key]), AllowOrigin), cache, None)
        else
          var fetched := Some(ApiBaseUrl + key);
          match FromUpstream(upstream)
          case None => Outcome(Degraded, cache, fetched)
          case Some(p) => Outcome(Response(200, PhotoBody(p), AllowOrigin), cache[key := p], fetched)
  }

  /** The request names a phone number the handler goes on to look up. */
  predicate HasLookupPhone(request: Request) {
    request.Json? && request.phone.Text? && request.phone.s != ""
  }

  /** Every cached payload is servable and filed under a normalised key. */
  predicate IsCacheValid(cache: map<string, Payload>) {
    forall k :: k in cache ==> IsNormalKey(k) && IsServable(cache[k])
  }

  /** The handler answers 400 exactly when the phone number is missing (absent or falsy), and
      then with `success: false`, leaving the cache alone and without calling the provider;
      every other answer is 200. */
  lemma RejectsExactlyMissingPhone(cache: map<string, Payload>, request: Request, upstream: Upstream)
    ensures var o := Resolve(cache, request, upstream);
      (o.response.status == 400 <==> request.Json? && !IsTruthy(request.phone)) &&
      (o.response.status == 400 || o.response.status == 200) &&
      (o.response.status == 400 ==>
        o.response.body == ErrorBody(false, PhoneRequiredMessage) && o.cache == cache && o.fetched == None)
  {
  }

  /** A cached number is answered from the cache: status 200, the cached payload, the CORS
      header, no call to the provider and no change to the cache. */
  lemma CacheHitServesCached(cache: map<string, Payload>, raw: string, upstream: Upstream)
    requires raw != "" && Normalize(raw) in cache
    ensures Resolve(cache, Json(Text(raw)), upstream) ==
      Outcome(Response(200, PhotoBody(cache[Normalize(raw)]), AllowOrigin), cache, None)
  {
  }

  /** When the provider is not called its answer makes no difference. */
  lemma UnfetchedIgnoresUpstream(cache: map<string, Payload>, request: Request, u1: Upstream, u2: Upstream)
    requires Resolve(cache, request, u1).fetched == None
    ensures Resolve(cache, request, u1) == Resolve(cache, request, u2)
  {
  }

  /** A body that cannot be read as JSON, or a truthy phone that is not a string (so that
      `.replace` throws), is caught and answered with the bare fallback payload, status 200,
      without calling the provider or touching the cache; no other request is answered so. */
  lemma ExceptionDegradesToFallback(cache: map<string, Payload>, request: Request, upstream: Upstream)
    ensures Resolve(cache, request, upstream) == Outcome(Degraded, cache, None) <==>
      request.Unreadable? || (request.phone.NonText? && request.phone.truthy)
  {
    assert "Access-Control-Allow-Origin" in AllowOrigin;
  }

  /** A miss is looked up under the normalised number; a transport failure, a non-ok status,
      an unparsable body or an unusable `result` gives the bare fallback payload, status 200,
      and nothing is cached. */
  lemma FailureDegradesToFallback(cache: map<string, Payload>, raw: string, upstream: Upstream)
    requires raw != "" && Normalize(raw) !in cache
    requires upstream.TransportFailure? || !IsOk(upstream.status) ||
      upstream.json.Malformed? || upstream.json.result.ResultOther?
    ensures Resolve(cache, Json(Text(raw)), upstream) ==
      Outcome(Degraded, cache, Some(ApiBaseUrl + Normalize(raw)))
  {
  }

  /** A miss with a usable ok answer is served with status 200 and the CORS header, private
      exactly when the URL is missing, empty or the sentinel, with the URL itself otherwise,
      and the payload is cached under the normalised number and nowhere else. */
  lemma OkAnswerIsServedAndCached(cache: map<string, Payload>, raw: string, status: int, field: ResultField)
    requires raw != "" && Normalize(raw) !in cache && IsOk(status) && !field.ResultOther?
    ensures var o := Resolve(cache, Json(Text(raw)), ApiResponse(status, ApiData(field)));
      o.response.status == 200 && o.response.headers == AllowOrigin && o.response.body.PhotoBody? &&
      o.fetched == Some(ApiBaseUrl + Normalize(raw)) &&
      var p := o.response.body.payload;
      p.success &&
      (p.isPhotoPrivate <==> field.NoResult? || IsPrivateUrl(field.url)) &&
      p.result == (if p.isPhotoPrivate then FallbackImageUrl else field.url) &&
      o.cache == cache[Normalize(raw) := p]
  {
  }

  /** The cache only grows: no entry is removed or changed, at most the looked-up number is
      added, and only together with a CORS response built from the provider's answer. */
  lemma CacheOnlyGrows(cache: map<string, Payload>, request: Request, upstream: Upstream)
    ensures var o := Resolve(cache, request, upstream);
      cache.Keys <= o.cache.Keys &&
      (forall k :: k in cache ==> o.cache[k] == cache[k]) &&
      (o.cache != cache ==>
        HasLookupPhone(request) && o.cache.Keys == cache.Keys + {Normalize(request.phone.s)} &&
        o.fetched.Some? && o.response.headers == AllowOrigin &&
        o.response.body == PhotoBody(o.cache[Normalize(request.phone.s)]))
  {
  }

  /** Only an answer taken from the cache or freshly resolved from the provider carries the
      CORS header; the fallback for a failure and the 400 carry no header. */
  lemma CorsOnlyOnResolvedPhoto(cache: map<string, Payload>, request: Request, upstream: Upstream)
    ensures var o := Resolve(cache, request, upstream);
      (o.response.headers == AllowOrigin || o.response.headers == map[]) &&
      (o.response.headers == AllowOrigin <==>
        HasLookupPhone(request) &&
        (Normalize(request.phone.s) in cache || FromUpstream(upstream).Some?))
  {
    assert "Access-Control-Allow-Origin" in AllowOrigin;
  }

  /** With a valid cache every 200 answer is a servable photo payload (`success: true`, a
      non-empty `result`), and the cache stays valid. */
  lemma ServesOnlyServablePayloads(cache: map<string, Payload>, request: Request, upstream: Upstream)
    requires IsCacheValid(cache)
    ensures var o := Resolve(cache, request, upstream);
      (o.response.status == 200 ==> o.response.body.PhotoBody? && IsServable(o.response.body.payload)) &&
      IsCacheValid(o.cache)
  {
    var o := Resolve(cache, request, upstream);
    if HasLookupPhone(request) {
      NormalizeIdempotent(request.phone.s);
    }
    assert forall k :: k in o.cache ==> k in cache || (HasLookupPhone(request) && k == Normalize(request.phone.s));
  }

  /** An 11-digit number without country code, `11987654321`, is looked up as `5511987654321`;
      a genuine photo URL is served as is and cached, and the same number asked again is
      answered from the cache whatever the provider would say. */
  lemma ExampleLookup(raw: string, url: string, later: Upstream)
    requires raw == "11987654321" && url == "https://example.com/photo.jpg"
    ensures var p := Payload(true, url, false);
      var o := Resolve(map[], Json(Text(raw)), ApiResponse(200, ApiData(ResultText(url))));
      o == Outcome(Response(200, PhotoBody(p), AllowOrigin), map["5511987654321" := p],
        Some(ApiBaseUrl + "5511987654321")) &&
      Resolve(o.cache, Json(Text(raw)), later) == Outcome(Response(200, PhotoBody(p), AllowOrigin), o.cache, None)
  {
    ExampleKey(raw);
    ExampleUrlIsPublic(url);
  }

  lemma ExampleKey(raw: string)
    requires raw == "11987654321"
    ensures Normalize(raw) == "5511987654321"
  {
    assert IsDigits(raw);
    assert raw[..2] != CountryCode by {
      assert raw[0] == '1';
    }
    assert CountryCode + raw == "5511987654321";
  }

  lemma ExampleUrlIsPublic(url: string)
    requires url == "https://example.com/photo.jpg"
    ensures !IsPrivateUrl(url)
  {
    assert 'f' !in url;
    MissingCharExcludes(url, PrivatePhotoMarker, 4);
  }

  /** `OPTIONS`: status 200, no body, and the three CORS preflight headers. */
  function Options(): (r: Response)
    ensures r.status == 200 && r.body == EmptyBody
    ensures r.headers.Keys ==
      {"Access-Control-Allow-Origin", "Access-Control-Allow-Methods", "Access-Control-Allow-Headers"}
    ensures r.headers["Access-Control-Allow-Origin"] == "*"
    ensures r.headers["Access-Control-Allow-Methods"] == "POST, OPTIONS"
    ensures r.headers["Access-Control-Allow-Headers"] == "Content-Type"
  {
    Response(200, EmptyBody, map[
      "Access-Control-Allow-Origin" := "*",
      "Access-Control-Allow-Methods" := "POST, OPTIONS",
      "Access-Control-Allow-Headers" := "Content-Type"])
  }

  /** The route module with its `phoneCache`. */
  class PhotoRoute {
    var phoneCache: map<string, Payload>

    ghost predicate Valid()
      reads this
    {
      IsCacheValid(phoneCache)
    }

    /** The module is loaded with an empty cache. */
    constructor ()
      ensures Valid() && phoneCache == map[]
    {
      phoneCache := map[];
    }

    /** `POST`: answers one request, given the provider's answer should it be asked; `fetched`
        is the URL passed to `fetch`, `None` when the provider was not called. */
    method Post(request: Request, upstream: Upstream) returns (response: Response, fetched: Option<string>)
      requires Valid()
      modifies this
      ensures Valid()
      ensures var o := Resolve(old(phoneCache), request, upstream);
        response == o.response && phoneCache == o.cache && fetched == o.fetched
    {
      ServesOnlyServablePayloads(phoneCache, request, upstream);
      fetched := None;
      if request.Unreadable? {
        return Degraded, fetched;
      }
      var phone := request.phone;
      if !IsTruthy(phone) {
        return Rejected, fetched;
      }
      if !phone.Text? {
        // `phone.replace` is not a function: the outer `catch` answers
        return Degraded, fetched;
      }
      var cleanPhone := StripNonDigits(phone.s);
      var fullNumber := cleanPhone;
      if !StartsWith(cleanPhone, CountryCode) && |cleanPhone| >= MinDigitsForCountryCode {
        fullNumber := CountryCode + cleanPhone;
      }
      if fullNumber in phoneCache {
        return Response(200, PhotoBody(phoneCache[fullNumber]), AllowOrigin), fetched;
      }
      fetched := Some(ApiBaseUrl + fullNumber);
      if upstream.TransportFailure? || !IsOk(upstream.status) || upstream.json.Malformed? {
        return Degraded, fetched;
      }
      var imageUrl := upstream.json.result;
      var isPhotoPrivate: bool;
      match imageUrl {
        case NoResult =>
          isPhotoPrivate := true;
        case ResultOther =>
          // `imageUrl.includes` is not a function: the outer `catch` answers
          return Degraded, fetched;
        case ResultText(url) =>
          isPhotoPrivate := url == "" || Contains(url, PrivatePhotoMarker);
      }
      var finalPayload := Payload(true, if isPhotoPrivate then FallbackImageUrl else imageUrl.url, isPhotoPrivate);
      phoneCache := phoneCache[fullNumber := finalPayload];
      response := Response(200, PhotoBody(finalPayload), AllowOrigin);
    }
  }
}
