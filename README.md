# Profile-photo lookup proxy and landing-page countdowns — a Dafny model

This project models two parts of a Next.js landing-page funnel.

1. The `POST /api/whatsapp-photo` route (`PhotoLookup`). It takes a phone number and strips it to
   digits. It prepends the Brazilian country code `55` when the stripped number is at least
   11 digits long and does not already start with `55`. It answers from a process-wide
   `phoneCache` when the number is there. Otherwise it asks the lookup provider once. It maps the
   provider's `result` URL to a `{ success, result, is_photo_private }` payload, where a missing
   URL or one containing `g.gif` means "private" and the placeholder avatar is served instead.
   The payload is cached. Every failure (transport, non-ok status, bad JSON, any exception)
   becomes the constant fallback payload with status 200. A missing phone number is the one 400.
   `OPTIONS` answers the CORS preflight.
2. The countdown timers of the upsell and downsell pages (`Countdown` plus one module per page). Each is a
   number of seconds decremented once per tick and never below zero. It is shown as zero-padded
   `HH:MM:SS` (emergency: 24 h, emergency-d: 12 h) or as `MM:SS` with unbounded minutes
   (emergency2: 15 min).

Layout:

- `strings.dfy` — `Strings`: the digit filter (`replace(/[^0-9]/g, "")`), `startsWith`, `includes`,
  `toString` of a non-negative integer, and `padStart`. Each comes with contracts or lemmas that
  say what it computes (for `startsWith`, a lemma relating it to an occurrence at position 0
  and to concatenation); for the digit filter, two lemmas together determine it on every string.
- `photo_lookup.dfy` — `PhotoLookup`: the request, provider-answer, payload and response datatypes.
  `Normalize` and `Interpret` are the pure parts. `Resolve` is the handler as a function of
  (cache, request, provider answer). The lemmas about `Resolve` state the route's promises.
  The class `PhotoRoute` holds `phoneCache` as a `map` field. Its imperative `Post` method follows
  the route's statements and is proved to do exactly what `Resolve` says.
- `countdown.dfy` — `Countdown`: the split of seconds into clock fields, the two `formatTime`
  variants with read-back and width lemmas, the tick updater, and a `Timer` class for the
  `timeLeft` state. The emergency and emergency-d pages share one `formatTime` text
  (app/emergency/page.tsx:118-123 and app/emergency-d/page.tsx:72-77 are identical), so it is
  defined once as `FormatHms`. The tick updater is identical on all three pages
  (app/emergency/page.tsx:113, app/emergency-d/page.tsx:49, app/emergency2/page.tsx:12) and is
  defined once as `Tick`.
- `emergency.dfy`, `emergency_d.dfy`, `emergency2.dfy` — each page's initial value, with the
  display it starts from. They also prove that the display keeps its width for the whole
  countdown and what it shows once the countdown has run out.

Interfaces that are parameters:

- The provider call is the parameter `upstream: Upstream`. It is either `TransportFailure` or
  `ApiResponse(status, json)`, where `json` is either `Malformed` or `ApiData(resultField)`.
  `Post` also returns `fetched`: the URL it passed to `fetch`, or `None` when no call was made.
  The lemmas use `fetched` to say when the provider is consulted.
- JavaScript's dynamic typing is kept where it changes the outcome. `phone` may be absent, a
  string, or another JSON value that is truthy or falsy. A falsy one (`null`, `0`, `false`)
  gets the 400 like a missing one. A truthy non-string makes `phone.replace` throw, which the
  outer `catch` turns into the fallback. A truthy non-string `result` from the provider makes
  `imageUrl.includes` throw in the same way (except an array, see "Left out").

Three behaviours of the code worth stating outright:

- Only the cache-hit and fresh-result responses carry `Access-Control-Allow-Origin: *`
  (app/api/whatsapp-photo/route.ts:40-43, 92-95). The fallback responses (lines 71 and 99) and
  the 400 carry no header.
- The 400 is given for every falsy `phone`: absent, `null`, `""`, `0` or `false`.
- A private answer is cached like any other interpreted answer.

## Model

| member | source | states |
|---|---|---|
| `Strings.StripNonDigits` | app/api/whatsapp-photo/route.ts:30 | the result consists of digits only, is no longer than the input, and is the input itself when the input is all digits |
| `Strings.StripNonDigitsChar` | app/api/whatsapp-photo/route.ts:30 | on a single character the filter keeps a digit and removes anything else; with `StripNonDigitsAppend` this fixes the result on every string |
| `Strings.StripNonDigitsAppend` | app/api/whatsapp-photo/route.ts:30 | the filter works per character: filtering a concatenation is concatenating the filtered parts |
| `Strings.StartsWithIffOccursAtZero` | app/api/whatsapp-photo/route.ts:33 | `startsWith` holds exactly when the prefix occurs at position 0, and exactly when the string is the prefix followed by the rest of the string |
| `Strings.ContainsIffOccurs` | app/api/whatsapp-photo/route.ts:81 | `includes` holds exactly when the substring occurs at some position |
| `Strings.Decimal` | app/emergency/page.tsx:122 | `toString` of a non-negative integer is a non-empty digit string without a leading zero that denotes the number; it is one digit exactly below 10 and at most two digits exactly below 100 |
| `Strings.PadStart` | app/emergency/page.tsx:122 | `padStart` keeps the string as its suffix, fills the front with the fill character only, and gives length max(width, original length) |
| `PhotoLookup.Normalize` | app/api/whatsapp-photo/route.ts:30-35 | the key is digits only; it is the stripped input or `55` before it; the prefix is added exactly when the stripped input lacks `55` and has at least 11 digits; every key of 11 or more digits starts with `55` |
| `PhotoLookup.NormalizeIdempotent` | app/api/whatsapp-photo/route.ts:30-35 | normalising a normalised key gives it back unchanged |
| `PhotoLookup.ExampleKey` | app/api/whatsapp-photo/route.ts:32-35 | `11987654321` normalises to `5511987654321` |
| `PhotoLookup.ExampleUrlIsPublic` | app/api/whatsapp-photo/route.ts:81 | `https://example.com/photo.jpg` is not treated as a private photo |
| `PhotoLookup.Interpret` | app/api/whatsapp-photo/route.ts:80-87 | a missing URL gives the fallback payload; a string URL gives `success: true`, private exactly when it is empty or contains `g.gif`, with the fallback image if private and the URL verbatim otherwise; a truthy non-string throws; every payload produced is servable |
| `PhotoLookup.RejectsExactlyMissingPhone` | app/api/whatsapp-photo/route.ts:20-27 | status 400 exactly when `phone` is falsy, with `success: false` and the message, no cache change and no provider call; every other status is 200 |
| `PhotoLookup.CacheHitServesCached` | app/api/whatsapp-photo/route.ts:38-44 | a cached key is answered with 200, the cached payload and the CORS header; the provider is not called and the cache is unchanged |
| `PhotoLookup.UnfetchedIgnoresUpstream` | app/api/whatsapp-photo/route.ts:38-63 | whenever no fetch happens, the provider's answer has no influence on the outcome |
| `PhotoLookup.ExceptionDegradesToFallback` | app/api/whatsapp-photo/route.ts:96-100 | an unreadable body (line 20) or a truthy non-string phone (line 30 throws) is caught and answered with exactly the fallback payload, status 200, no header, no provider call and the cache unchanged — and no other request gets that outcome |
| `PhotoLookup.FailureDegradesToFallback` | app/api/whatsapp-photo/route.ts:62-72 | on a miss, the number looked up is the normalised key; a transport failure, non-ok status, unparsable body or non-string truthy `result` gives exactly the fallback payload with status 200 and no header, and nothing is cached |
| `PhotoLookup.OkAnswerIsServedAndCached` | app/api/whatsapp-photo/route.ts:74-95 | on a miss with an ok answer the response is 200 with the CORS header; the payload is private exactly when the URL is missing, empty or contains `g.gif`, carries the fallback image if private and the URL verbatim otherwise, and is cached under the normalised key and nowhere else |
| `PhotoLookup.CacheOnlyGrows` | app/api/whatsapp-photo/route.ts:89-90 | no key is removed or changed; a request adds at most its normalised key, and only when it answers with the CORS header and the payload it caches |
| `PhotoLookup.CorsOnlyOnResolvedPhoto` | app/api/whatsapp-photo/route.ts:92-95 | the only header is `Access-Control-Allow-Origin: *`; it is present exactly on a cache hit or a usable provider answer |
| `PhotoLookup.ServesOnlyServablePayloads` | app/api/whatsapp-photo/route.ts:11-16 | with a valid cache, every 200 body is a photo payload with `success: true` and a non-empty `result`, and the cache stays valid (servable payloads under normalised keys) |
| `PhotoLookup.ExampleLookup` | app/api/whatsapp-photo/route.ts:29-95 | for `11987654321` and a genuine URL, the empty cache yields the URL verbatim, not private, cached under `5511987654321` and fetched from that number; asking again is answered from the cache whatever the provider would say |
| `PhotoLookup.Options` | app/api/whatsapp-photo/route.ts:104-113 | `OPTIONS` answers 200, no body, and exactly the three preflight headers with their values |
| `PhotoLookup.PhotoRoute.constructor` | app/api/whatsapp-photo/route.ts:6 | the cache starts empty |
| `PhotoLookup.PhotoRoute.Post` | app/api/whatsapp-photo/route.ts:9-101 | the response, the new cache and the URL fetched are exactly those `Resolve` gives for the old cache, and the cache stays valid |
| `Countdown.SplitHms` | app/emergency/page.tsx:119-121 | `hours*3600 + mins*60 + secs == seconds` with `mins < 60` and `secs < 60` |
| `Countdown.SplitMs` | app/emergency2/page.tsx:21-22 | `mins*60 + secs == seconds` with `secs < 60`, minutes not wrapped into hours |
| `Countdown.Field` | app/emergency/page.tsx:122 | a field is a digit string of at least two characters that denotes the number; it is exactly two characters exactly below 100 |
| `Countdown.FieldFromHundred` | app/emergency/page.tsx:122 | from 100 on `padStart(2, "0")` adds nothing: the field is the plain decimal numeral, with no leading zero |
| `Countdown.FieldBelowHundred` | app/emergency/page.tsx:122 | below 100 a field is the tens digit followed by the units digit |
| `Countdown.FormatHmsReadsBack` | app/emergency-d/page.tsx:72-77 | the `HH:MM:SS` text is three `:`-separated digit fields, the last two two digits long and below 60, and reading them back gives the seconds |
| `Countdown.FormatHmsWidth` | app/emergency/page.tsx:118-123 | the text is 8 characters long exactly below 360000 seconds, with `:` at positions 2 and 5 |
| `Countdown.FormatMsReadsBack` | app/emergency2/page.tsx:20-24 | the `MM:SS` text is two `:`-separated digit fields, the second two digits long and below 60, and reading them back gives the seconds |
| `Countdown.FormatMsWidth` | app/emergency2/page.tsx:23 | the text is 5 characters long exactly below 6000 seconds, with `:` at position 2 |
| `Countdown.Tick` | app/emergency/page.tsx:113 | one tick is one elapsed second of a countdown that stops at zero |
| `Countdown.TickAdvancesRemaining` | app/emergency/page.tsx:111-116 | applying the updater to the seconds left after `e` ticks gives the seconds left after `e + 1` ticks, so ticking step by step agrees with counting elapsed ticks floored at zero |
| `Countdown.Timer.constructor` | app/emergency-d/page.tsx:20 | the state starts at the initial value with no tick elapsed |
| `Countdown.Timer.OnInterval` | app/emergency-d/page.tsx:47-52 | each interval firing applies the tick; `timeLeft` always equals the initial value minus the elapsed ticks, floored at zero |
| `EmergencyPage.InitialDisplay` | app/emergency/page.tsx:13 | the 24-hour countdown opens showing `24:00:00` |
| `EmergencyPage.DisplayKeepsWidth` | app/emergency/page.tsx:110-123 | after any number of ticks the display is 8 characters with `:` at positions 2 and 5 |
| `EmergencyPage.ExpiredDisplay` | app/emergency/page.tsx:111-116 | after 86400 or more ticks the display is `00:00:00` |
| `EmergencyDownsellPage.InitialDisplay` | app/emergency-d/page.tsx:20 | the 12-hour countdown opens showing `12:00:00` |
| `EmergencyDownsellPage.DisplayKeepsWidth` | app/emergency-d/page.tsx:46-77 | after any number of ticks the display is 8 characters with `:` at positions 2 and 5 |
| `EmergencyDownsellPage.ExpiredDisplay` | app/emergency-d/page.tsx:47-52 | after 43200 or more ticks the display is `00:00:00` |
| `Emergency2Page.InitialDisplay` | app/emergency2/page.tsx:8 | the 15-minute countdown opens showing `15:00` |
| `Emergency2Page.DisplayKeepsWidth` | app/emergency2/page.tsx:10-24 | after any number of ticks the display is 5 characters with `:` at position 2 |
| `Emergency2Page.ExpiredDisplay` | app/emergency2/page.tsx:10-18 | after 900 or more ticks the display is `00:00` |

## Left out

- The `fetch` to the provider, its API-key and host headers, and the 10-second `AbortSignal.timeout` (app/api/whatsapp-photo/route.ts:48-63): network I/O and timing. The outcome is the `Upstream` parameter, and a timeout or abort is `TransportFailure`.
- `await response.text()` on the error path (route.ts:69): it only feeds a log line. Whether it succeeds or throws, the answer is the same fallback.
- `request.json()` itself (route.ts:20): JSON parsing is not modelled. A body that fails to parse or cannot be destructured is `Request.Unreadable`. A body that is not an object is modelled as `phone` absent.
- An array-valued `result` from the provider: `Array.prototype.includes` would then test for an element equal to `"g.gif"`, and the array itself would become `result`. Only absent or falsy values, strings, and truthy values without `includes` are modelled.
- `console.log` / `console.error` and the `process.env.RAPIDAPI_KEY` lookup: logging and configuration, with no effect on any response.
- Concurrent requests racing on `phoneCache`: requests are modelled one at a time.
- The `NextResponse` objects: a response is its status, its body and the CORS headers the route sets. The `Content-Type` that `NextResponse.json` adds is not modelled.
- Page rendering, framer-motion animation and JSX layout of the three pages.
- Injecting and removing the third-party checkout scripts: Monetizze (app/emergency/page.tsx:20-43), Kiwify (app/emergency-d/page.tsx:55-70) and TriboPay (app/emergency2/page.tsx:180-184). This is DOM glue.
- Geolocation and reverse geocoding (app/emergency/page.tsx:46-84): browser API and network.
- The `Date`-based timestamp strings (app/emergency/page.tsx:87-96, app/emergency-d/page.tsx:23-32): they depend on the wall clock.
- URL-parameter and `sessionStorage` reads (app/emergency/page.tsx:99-108, app/emergency-d/page.tsx:35-44): browser I/O.
- `setInterval` scheduling and its cleanup: only the updater each firing applies is modelled, as `Timer.OnInterval`.
- JavaScript number semantics in `formatTime` (negative, fractional, or beyond 2^53 seconds): the model's durations are unbounded `nat`. Above 2^53 floating-point arithmetic is no longer exact, and `toString` switches to exponent notation from 1e21, so `Decimal` and `FormatHmsReadsBack` claim more than JavaScript delivers there. `timeLeft` only ever holds the initial value or a tick result, never above the initial value, so none of these values reach `formatTime`.
