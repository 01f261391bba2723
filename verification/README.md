# riftcaptcha request-handling core, modelled in Dafny

riftcaptcha is an HTTP service that issues proof-of-work CAPTCHA challenges
and verifies the submitted solutions. This project models the request
handling around that exchange, with pure functions over explicit state and an
explicit clock reading:

- **Rate limiter** (`rate_limit.dfy`, module `RateLimit`). A fixed-window,
  per-identifier counter over a store `map<string, Record>`. `Step` handles
  one request at clock reading `now`. It has four outcomes: admitted because
  limiting is off, admitted as a new window, admitted and counted, or
  rejected with 429 ("Too Many Requests", section 4 of RFC 6585).
  A rejection carries a `Retry-After` delay in the delay-seconds form of
  section 10.2.3 of RFC 9110. `Sweep` is the periodic cleanup, written as a
  separate pure function. `Run` folds `Step` over a series of requests.
- **Key validator** (`key_validator.dfy`, module `KeyValidator`, using
  `text.dfy`, module `Text`). It splits the site-key and secret-key settings
  on `,`, trims each entry, pairs the two lists by position, and answers
  the membership queries.
- **Endpoints** (`handlers.dfy`, module `Handlers`). `/config`, `/challenge`
  and `/verify` are functions from the configuration, the request and the
  provider's outcome to a `(status, JSON body)` response. The challenge
  provider is a function parameter. Each handler also returns the call it
  made to the provider (or `None`), so contracts can say when the provider
  is consulted and with which arguments.
- **Log-level filter** (`logger.dfy`, module `Logger`). Five ranked levels
  and the threshold test `ShouldLog`.
- Support modules:
  - `wrappers.dfy`: `Option` and `Result`.
  - `http.dfy`: JSON values, JavaScript truthiness, responses.
  - `decimal.dfy`: the decimal text of a header value.

Three details of the code that are easy to miss:

- A new window sets no `X-RateLimit-*` headers. Only the counted-admit
  branch and the rejection set them.
- A rejected request can get `retryAfter == 0`. This happens when the
  window ends exactly at `now`: a window whose end equals `now` is still
  running.
- `/verify` answers "Missing payload" only for a falsy payload: a
  `payload` field that is `false`, `0` or `""`, or a whole body that is one
  of these. `body.payload ?? body` falls back to the whole body when
  `payload` is missing or `null`, and an object body is truthy. So `{}` and
  `{"payload": null}` are passed to the provider, not rejected as missing.

## Model

| member | source | states |
|---|---|---|
| RateLimit.Identifier | src/middleware/rateLimit.ts:29-31 | the identifier is a non-empty `x-forwarded-for`, else a non-empty `x-real-ip`, else `unknown`; it is never empty |
| RateLimit.CeilSeconds | src/middleware/rateLimit.ts:45 | the retry delay is the least whole number of seconds covering the remaining milliseconds |
| RateLimit.Step | src/middleware/rateLimit.ts:23-68 | off ⇒ admitted with the store unchanged; a rejection leaves the store unchanged; no identifier other than the requester's is added or changed (every identifier is treated as an ordinary key; see Findings) |
| RateLimit.StepAsWritten | src/middleware/rateLimit.ts:11-65 | with the store a plain object, the request throws exactly when limiting is on and the identifier names an inherited member that is not an own key; otherwise it is `Step`; such a name is never stored |
| RateLimit.InheritedKeyThrows | src/middleware/rateLimit.ts:34-65 | `x-forwarded-for: constructor` (or any inherited name) makes the code as written throw, where `Step` opens a window |
| RateLimit.Rejection | src/middleware/rateLimit.ts:46-51 | a rejection is answered with status 429 and a body of exactly `error` ("Too many requests") and `retryAfter` (the delay) |
| RateLimit.Sweep | src/middleware/rateLimit.ts:14-21 | the sweep keeps exactly the records whose window has not ended before `now`, each unchanged |
| RateLimit.DisabledAdmits | src/middleware/rateLimit.ts:24-26 | with limiting off a request is admitted and nothing is recorded |
| RateLimit.ExpiredOrMissingOpensWindow | src/middleware/rateLimit.ts:36-41 | a missing record or one with `resetTime < now` (strict) is exactly the case that installs `{count: 1, resetTime: now + window}` and admits |
| RateLimit.FullWindowRejects | src/middleware/rateLimit.ts:44-58 | in a running window, rejection happens iff `count >= max`; it leaves the store unchanged, takes the rounded-up rest of the window as delay and sends remaining 0 |
| RateLimit.BelowMaxCounts | src/middleware/rateLimit.ts:61-65 | below the maximum the request is admitted, the count grows by exactly one, and the headers carry the maximum, the maximum minus the new count, and the unchanged window end |
| RateLimit.StepKeepsCountsWithin | src/middleware/rateLimit.ts:36-61 | with a positive maximum every count stays between 1 and the maximum |
| RateLimit.StepKeepsResetsWithin | src/middleware/rateLimit.ts:39 | on a clock that does not go backwards, no window ends more than one window length ahead |
| RateLimit.RetryAfterBounded | src/middleware/rateLimit.ts:45 | on such a clock the retry delay is between 0 and the window length in whole seconds |
| RateLimit.RetryAfterValue | src/middleware/rateLimit.ts:53 | the `Retry-After` text is a digit string without a leading zero that reads back as the delay |
| RateLimit.SweepIdempotent | src/middleware/rateLimit.ts:14-21 | sweeping twice at the same instant equals sweeping once |
| RateLimit.SweepKeepsCountsWithin | src/middleware/rateLimit.ts:16-18 | the sweep only deletes, so the count bound survives it |
| RateLimit.SweepUnobservable | src/middleware/rateLimit.ts:14-41 | a sweep at or before a request's clock reading changes neither the decision nor what remains after the next sweep; a newly installed record survives it |
| RateLimit.DisabledAdmitsAll | src/middleware/rateLimit.ts:24-26 | with limiting off any number of requests is admitted and the store is unchanged |
| RateLimit.RunningWindow | src/middleware/rateLimit.ts:44-61 | in a running window that has counted `c`, request `i` is counted iff `c + i < max` and rejected otherwise |
| RateLimit.WindowAdmitsExactlyMax | src/middleware/rateLimit.ts:36-61 | from a fresh window, request `i` of the window is admitted iff `i < max`, so request max+1 is the first rejected |
| RateLimit.ScenarioTwoPerMinute | src/middleware/rateLimit.ts:36-58 | window 60000 ms, max 2: two requests pass, the third in the same minute is rejected with a delay of 0..60 s |
| RateLimit.BoundaryBurst | src/middleware/rateLimit.ts:36-45 | a full window is still rejected at its end instant with delay 0, and a new window opens one millisecond later (the accepted fixed-window burst) |
| Decimal.FromNat | src/middleware/rateLimit.ts:53-54 | `toString` of a non-negative integer is a non-empty digit string with no leading zero |
| Decimal.FromNatRoundTrip | src/middleware/rateLimit.ts:53 | reading the printed numeral back gives the number |
| Decimal.FromNatInjective | src/middleware/rateLimit.ts:53 | different delays print differently |
| Text.LeadEnd | src/utils/keyValidator.ts:20-21 | the scan from the left skips exactly the leading white space: everything before the returned index is white, the character at it is not |
| Text.TrailStart | src/utils/keyValidator.ts:20-21 | the scan from the right skips exactly the trailing white space, never going below the left margin |
| Text.TrimIn | src/utils/keyValidator.ts:20-21 | stripping cuts out an infix with only stripped characters around it, which neither starts nor ends with one |
| Text.Trim | src/utils/keyValidator.ts:20-21 | `trim` returns a string no longer than its input that neither starts nor ends with white space |
| Text.TrimCutsOut | src/utils/keyValidator.ts:20-21 | `trim` cuts out an infix of its input between two white-space-only margins |
| Text.CutOutUnique | src/utils/keyValidator.ts:20-21 | at most one such infix exists, so the trim contract fixes its result |
| Text.TrimCharacterised | src/utils/keyValidator.ts:20-21 | any tight infix between white margins is the trim |
| Text.TrimOfTrimmed | src/utils/keyValidator.ts:20-21 | a string with no surrounding white space is its own trim |
| Text.TrimIdempotent | src/utils/keyValidator.ts:20-21 | trimming twice equals trimming once |
| Text.Split | src/utils/keyValidator.ts:20-21 | `split(',')` yields at least one piece, and no piece contains the separator |
| Text.JoinSplit | src/utils/keyValidator.ts:20-21 | joining the pieces with the separator restores the string |
| Text.SplitJoin | src/utils/keyValidator.ts:20-21 | splitting undoes a join of separator-free pieces |
| Text.SplitCount | src/utils/keyValidator.ts:20-21 | there is one more piece than there are separators |
| KeyValidator.TrimAll | src/utils/keyValidator.ts:20-21 | one entry per piece, entry `i` being piece `i` trimmed |
| KeyValidator.KeyList | src/utils/keyValidator.ts:20-21 | one key per comma plus one; key `i` is piece `i` of the split, trimmed, so it has no surrounding white space |
| KeyValidator.Zip | src/utils/keyValidator.ts:27-30 | pair `i` holds site key `i` and secret key `i` |
| KeyValidator.HasKeys | src/utils/keyValidator.ts:50-52 | true iff some pair was loaded; without pairs no site key, secret key or pair validates |
| KeyValidator.Load | src/utils/keyValidator.ts:15-31 | a missing or empty setting loads nothing; unequal counts fail with the mismatch error; otherwise pair `i` is the trimmed entry `i` of each list |
| KeyValidator.Any | src/utils/keyValidator.ts:35 | `some` is true iff some pair satisfies the test |
| KeyValidator.ValidateSiteKey | src/utils/keyValidator.ts:33-36 | true iff the key is non-empty and is the site key of some pair |
| KeyValidator.ValidateSecretKey | src/utils/keyValidator.ts:38-41 | true iff the key is non-empty and is the secret key of some pair |
| KeyValidator.ValidateKeyPair | src/utils/keyValidator.ts:43-48 | true iff both keys are non-empty and some single pair holds both |
| KeyValidator.KeyPairImpliesEach | src/utils/keyValidator.ts:33-48 | a matching pair implies each key validates alone |
| KeyValidator.FalsyKeyRejected | src/utils/keyValidator.ts:34-44 | an absent or empty argument fails every query, even if a loaded entry is empty |
| KeyValidator.MissingSettingLoadsNothing | src/utils/keyValidator.ts:16-18 | without both settings, construction succeeds and `hasKeys` is false |
| KeyValidator.LoadedHasKeys | src/utils/keyValidator.ts:20-30 | with both settings and a successful load, `hasKeys` is true and there is one pair per comma plus one |
| KeyValidator.KeyListOfJoined | src/utils/keyValidator.ts:20-21 | splitting and trimming a comma-joined list of clean keys gives the keys back |
| KeyValidator.LoadJoinedRoundTrip | src/utils/keyValidator.ts:20-30 | loading comma-joined clean keys yields exactly those keys paired by position |
| KeyValidator.CrossPairRejected | src/utils/keyValidator.ts:43-48 | with `a,b` / `x,y`, the pairs (a,x) and (b,y) validate and the cross pairs (a,y) and (b,x) do not |
| KeyValidator.MismatchFails | src/utils/keyValidator.ts:23-25 | lists of different lengths make construction fail |
| Handlers.ErrorText | src/index.ts:72-74 | with verbose errors and an `Error` the text is the thrown message; in every other case it is the generic text |
| Handlers.WithTimestamp | src/index.ts:62-65 | the timestamp field is added iff configured, and every other field is kept unchanged |
| Handlers.HandleConfig | src/index.ts:31-43 | the four fields are always present; the window and maximum are present iff limiting is on; the only text field is the algorithm |
| Handlers.ChallengeRequest | src/index.ts:47-53 | the provider gets the configured key, bounds and algorithm, and expiry `now + CHALLENGE_EXPIRY` |
| Handlers.HandleChallenge | src/index.ts:45-79 | the provider is called with exactly `ChallengeRequest(cfg, now)`; status 200 iff it returns a token, with the token plus an optional timestamp; status 500 iff it throws, with the policy-chosen error text |
| Handlers.ReadPayload | src/index.ts:83-84 | `body.payload ?? body`: the payload field unless it is missing or null, else the body; a null body throws |
| Handlers.HandleVerify | src/index.ts:81-121 | the status is 200, 400 or 500; the provider is called iff the extracted payload is truthy, and then with the signing key and `true` as third argument |
| Handlers.VerifyFailure | src/index.ts:111-119 | a caught throw is answered 500 with exactly `success: false`, `verified: false` and the error text: the message under verbose errors for an `Error`, else "Verification failed" |
| Handlers.MissingPayloadRejected | src/index.ts:86-93 | a falsy payload gets 400 with the missing-payload body, and the provider is not called |
| Handlers.VerdictShapesResponse | src/index.ts:95-107 | `success == verified == v`; status 200 iff `v`, else 400; a timestamp is present iff configured |
| Handlers.ThrowAnswered500 | src/index.ts:108-119 | a 500 answer happens exactly on an unparseable body, a null body or a provider throw; it has both flags false and the error text of that very throw (the parser's message, the null-read `TypeError`, or the provider's throw) |
| Handlers.FailsClosed | src/index.ts:95-107 | `success: true` and status 200 happen only when the provider was called on the payload with the key and `true` as third argument and said true |
| Handlers.VerbosityKeepsStatus | src/index.ts:68-77 | the verbose-errors setting changes no status code and no provider call |
| Handlers.NullishFallback | src/index.ts:84-86 | an empty-string payload is kept and rejected with 400; a null payload falls back to the whole body |
| Handlers.EmptyBodyChecked | src/index.ts:84-95 | the body `{}` is its own payload, is truthy, and is passed to the provider with the key and `true` as third argument; it never gets the missing-payload answer |
| Handlers.ChallengePassesTokenThrough | src/index.ts:62-65 | every token field is passed through unchanged, and a timestamp is added iff configured |
| Http.Truthy | src/index.ts:86 | exactly `null`, `false`, `0` and `""` are falsy; every array and object is truthy |
| Http.TruthyText | src/middleware/rateLimit.ts:29-31 | a header or setting that may be absent is truthy iff present and non-empty |
| Logger.Rank | src/utils/logger.ts:5-11 | each level has a rank between 0 and 4 |
| Logger.ShouldLog | src/utils/logger.ts:5-22 | the rank comparison (none 0, error 1, warn 2, info 3, debug 4) lets a message level through iff it is in an independent enumerated table of the threshold |
| Logger.RankInjective | src/utils/logger.ts:5-11 | ranks are distinct, so the levels are totally ordered |
| Logger.NoneSilencesAll | src/utils/logger.ts:6 | threshold `none` emits no error, warn, info or debug message |
| Logger.DebugEmitsAll | src/utils/logger.ts:10 | threshold `debug` emits every level |
| Logger.Monotonic | src/utils/logger.ts:20-22 | a level emitted at a threshold is emitted at every higher threshold |
| Logger.DownwardClosed | src/utils/logger.ts:20-22 | whatever is emitted, every lower level is emitted too |
| Logger.DefaultSuppressesDebug | src/utils/logger.ts:16 | at the default `info` threshold, debug is suppressed and the other three levels are emitted |

## Left out

- Challenge creation and solution checking (HMAC signing, proof-of-work search and check): done by an external library whose code is not part of this model. They appear only as the `Issuer` and `Checker` function parameters, returning a value or a throw.
- HTTP plumbing: routing, the CORS middleware, `serve`, and the mechanics of the response and header helpers. Requests and responses are datatypes. The composition "rate limiter, then endpoint" is not modelled as a function.
- `/health`: it always answers `{status: "ok"}`, so it has no logic to model.
- Clock and date formatting: `now` is an integer parameter. The `timestamp` field is the ISO text, passed in as `stamp`. `X-RateLimit-Reset` is kept as integer milliseconds rather than ISO text.
- The `X-RateLimit-Limit` and `X-RateLimit-Remaining` headers are kept as numbers. Only `Retry-After` is rendered as text.
- The timer that runs the sweep every five minutes, and the shared global store: the sweep is a pure function and the store is a threaded value. Atomicity under concurrent requests is not modelled.
- Environment parsing and validation. The rate limiter's bounds appear as `Limits.Valid`, required where its properties need them. The endpoint models need no bounds. All numeric settings are naturals, so fractional values are not modelled.
- RateLimit.Step: counts and clock readings are unbounded integers. This ignores JavaScript's 2^53 limit on exact integers, which is far beyond any reachable count.
- RateLimit.Step: an identifier naming a member inherited from `Object.prototype` is treated as an ordinary key. The code as written throws for it instead; that behaviour is `RateLimit.StepAsWritten` (see Findings). The `NaN` the code writes to the inherited member's `count` is not modelled.
- Handlers.ReadPayload: JSON numbers are exact reals, not doubles. A parser turns `1e400` into `Infinity` and `1e-400` into `0`, which is falsy; the model keeps both as the written real, so such a bare numeric body is truthy here.
- Console output of the logger, and the `LOG_CHALLENGES` / `LOG_VERIFICATIONS` side logging in the handlers: these are output only and do not change responses.
- `REQUIRE_KEYS`: no endpoint consults the key validator, so the model adds no link between the validator and the handlers.
- Handlers.HandleVerify: the provider's third argument is modelled as a boolean named `flag`, and the handler always passes `true`. Its meaning inside the library is outside this model.
- Handlers.HandleChallenge: the two clock reads (expiry and timestamp) are separate parameters, `now` and `stamp`. Their relationship is not modelled.

## Findings

| source | as written | input that shows it | evidently intended | confidence | as-written member | corrected member |
|---|---|---|---|---|---|---|
| src/middleware/rateLimit.ts:11-65 | the store is a plain object literal, so `store[identifier]` finds members inherited from `Object.prototype`; with no `resetTime` both window tests fail, the count becomes `NaN`, and `new Date(undefined).toISOString()` throws | header `x-forwarded-for: constructor` (also `__proto__`, `toString`, `valueOf`, …) | every identifier is an ordinary key with its own counter, e.g. a prototype-less object or a `Map` | not executed | RateLimit.StepAsWritten, RateLimit.InheritedKeyThrows | RateLimit.Step (with RateLimit.WindowAdmitsExactlyMax for every identifier) |
