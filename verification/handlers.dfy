/** The `/config`, `/challenge` and `/verify` endpoints as pure functions
    from the configuration, the request and the challenge provider's
    outcome to the (status, JSON body) answer. The provider (challenge
    creation and solution checking, done by a cryptographic library) is a
    function parameter; each handler also reports the call it made to the
    provider, if any, so the contracts can say when the provider is
    consulted and with what. */
module Handlers {
  import opened Wrappers
  import opened Http
  import RateLimit

  datatype Algorithm = Sha1 | Sha256 | Sha512
  {
    /** The identifier the configuration and the tokens use. */
    function Name(): string
    {
      match this
      case Sha1 => "SHA-1"
      case Sha256 => "SHA-256"
      case Sha512 => "SHA-512"
    }
  }

  /** The settings the endpoints read. */
  datatype Config = Config(
    hmacKey: string,
    maxNumber: nat,
    saltLength: nat,
    algorithm: Algorithm,
    challengeExpiry: nat,
    rateLimit: RateLimit.Limits,
    includeTimestamp: bool,
    verboseErrors: bool)

  /** A thrown value: its message and whether it is an `Error` instance
      (JavaScript code may also throw strings or other values). */
  datatype Thrown = Thrown(message: string, isError: bool)

  /** What a provider call produced: a value, or a throw. */
  datatype Outcome<+T> = Ok(value: T) | Err(thrown: Thrown)

  /** The arguments of a challenge-creation call. */
  datatype ChallengeParams = ChallengeParams(
    hmacKey: string, maxNumber: nat, saltLength: nat, algorithm: Algorithm, expires: int)

  /** The arguments of a solution-checking call: the payload, the signing
      key, and a third, boolean argument whose meaning belongs to the
      provider. */
  datatype VerifyCall = VerifyCall(payload: Json, secret: string, flag: bool)

  /** A challenge-creation function of the provider: parameters to the
      token's fields. */
  type Issuer = ChallengeParams -> Outcome<map<string, Json>>

  /** A solution-checking function of the provider. */
  type Checker = (Json, string, bool) -> Outcome<bool>

  datatype ChallengeResult = ChallengeResult(response: Response, call: ChallengeParams)

  datatype VerifyResult = VerifyResult(response: Response, call: Option<VerifyCall>)

  /** How the request body reached the handler: parsed, or rejected by the
      JSON parser with a `SyntaxError` carrying the given message. */
  datatype RequestBody = Parsed(json: Json) | Unparseable(message: string)

  const Ok200: nat := 200
  const BadRequest400: nat := 400
  const ServerError500: nat := 500

  const ChallengeFailed: string := "Failed to create challenge"
  const VerificationFailed: string := "Verification failed"
  const MissingPayload: string := "Missing payload"

  /** The `TypeError` message of reading a property of `null`. */
  const NullPropertyRead: string := "Cannot read properties of null (reading 'payload')"

  /** The error text of a caught throw: its own message only when verbose
      errors are on and it is an `Error`, the generic text otherwise. */
  function ErrorText(cfg: Config, e: Thrown, generic: string): (t: string)
    ensures t == e.message || t == generic
    ensures !cfg.verboseErrors ==> t == generic
    ensures t == e.message && e.message != generic ==> cfg.verboseErrors && e.isError
    ensures cfg.verboseErrors && e.isError ==> t == e.message
    ensures !(cfg.verboseErrors && e.isError) ==> t == generic
  {
    if cfg.verboseErrors && e.isError then e.message else generic
  }

  /** Add the `timestamp` field when timestamps are configured. */
  function WithTimestamp(cfg: Config, body: map<string, Json>, stamp: string): (r: map<string, Json>)
    ensures "timestamp" in r <==> cfg.includeTimestamp || "timestamp" in body
    ensures cfg.includeTimestamp ==> r["timestamp"] == JStr(stamp)
    ensures forall k :: k in body && k != "timestamp" ==> k in r && r[k] == body[k]
    ensures forall k :: k in r && k != "timestamp" ==> k in body
    ensures !cfg.includeTimestamp ==> r == body
  {
    if cfg.includeTimestamp then body["timestamp" := JStr(stamp)] else body
  }

  // ----- /config -----

  /** The sanitized configuration: always the algorithm, the maximum number,
      the challenge lifetime and whether rate limiting is on; the window and
      maximum of the rate limiter only when it is on. The only text field is
      the algorithm name, so the signing key is never included. */
  function HandleConfig(cfg: Config): (r: Response)
    ensures r.status == 200
    ensures {"algorithm", "maxNumber", "challengeExpiry", "rateLimitEnabled"} <= r.body.Keys
    ensures r.body["algorithm"] == JStr(cfg.algorithm.Name())
    ensures r.body["maxNumber"] == JNum(cfg.maxNumber as real)
    ensures r.body["challengeExpiry"] == JNum(cfg.challengeExpiry as real)
    ensures r.body["rateLimitEnabled"] == JBool(cfg.rateLimit.enabled)
    ensures "rateLimitWindow" in r.body <==> cfg.rateLimit.enabled
    ensures "rateLimitMaxRequests" in r.body <==> cfg.rateLimit.enabled
    ensures cfg.rateLimit.enabled ==>
      && r.body["rateLimitWindow"] == JNum(cfg.rateLimit.windowMs as real)
      && r.body["rateLimitMaxRequests"] == JNum(cfg.rateLimit.maxRequests as real)
    ensures |r.body| == if cfg.rateLimit.enabled then 6 else 4
    ensures forall k :: k in r.body && r.body[k].JStr? ==> k == "algorithm"
  {
    var always := map[
      "algorithm" := JStr(cfg.algorithm.Name()),
      "maxNumber" := JNum(cfg.maxNumber as real),
      "challengeExpiry" := JNum(cfg.challengeExpiry as real),
      "rateLimitEnabled" := JBool(cfg.rateLimit.enabled)];
    var body :=
      if cfg.rateLimit.enabled then
        always["rateLimitWindow" := JNum(cfg.rateLimit.windowMs as real)]
              ["rateLimitMaxRequests" := JNum(cfg.rateLimit.maxRequests as real)]
      else always;
    Response(Ok200, body)
  }

  // ----- /challenge -----

  /** The parameters a challenge is created with at clock reading `now`:
      the configured key, bounds and algorithm, expiring one challenge
      lifetime from now. */
  function ChallengeRequest(cfg: Config, now: int): (p: ChallengeParams)
    ensures p.expires == now + cfg.challengeExpiry
    ensures p.hmacKey == cfg.hmacKey && p.algorithm == cfg.algorithm
    ensures p.maxNumber == cfg.maxNumber && p.saltLength == cfg.saltLength
  {
    ChallengeParams(cfg.hmacKey, cfg.maxNumber, cfg.saltLength, cfg.algorithm, now + cfg.challengeExpiry)
  }

  /** Issue a challenge: ask the provider for a token; on success answer 200
      with the token's fields plus, if configured, the timestamp `stamp`; if
      the provider throws, answer 500 with an error text chosen by the
      verbose-errors setting. */
  function HandleChallenge(cfg: Config, now: int, stamp: string, issue: Issuer): (r: ChallengeResult)
    ensures r.call == ChallengeRequest(cfg, now)
    ensures r.call.expires == now + cfg.challengeExpiry
    ensures r.response.status == 200 <==> issue(r.call).Ok?
    ensures r.response.status == 500 <==> issue(r.call).Err?
    ensures issue(r.call).Ok? ==>
      r.response.body == WithTimestamp(cfg, issue(r.call).value, stamp)
    ensures issue(r.call).Err? ==>
      r.response.body == map["error" := JStr(ErrorText(cfg, issue(r.call).thrown, ChallengeFailed))]
  {
    var params := ChallengeRequest(cfg, now);
    match issue(params)
    case Ok(token) =>
      ChallengeResult(Response(Ok200, WithTimestamp(cfg, token, stamp)), params)
    case Err(e) =>
      ChallengeResult(Response(ServerError500, map["error" := JStr(ErrorText(cfg, e, ChallengeFailed))]), params)
  }

  // ----- /verify -----

  /** `body.payload ?? body`: the `payload` field unless it is missing or
      `null`, else the whole body. Reading a field of `null` throws; any
      other non-object value has no fields and is its own payload. */
  function ReadPayload(body: Json): (r: Result<Json, Thrown>)
    ensures r.Failure? <==> body == JNull
    ensures r.Failure? ==> r.error == Thrown(NullPropertyRead, true)
    ensures r.Success? && body.JObj? && "payload" in body.fields && body.fields["payload"] != JNull ==>
      r.value == body.fields["payload"]
    ensures r.Success? && !(body.JObj? && "payload" in body.fields && body.fields["payload"] != JNull) ==>
      r.value == body
    ensures r.Success? ==> r.value != JNull
  {
    match body
    case JNull => Failure(Thrown(NullPropertyRead, true))
    case JObj(fields) =>
      if "payload" in fields && fields["payload"] != JNull then Success(fields["payload"]) else Success(body)
    case _ => Success(body)
  }

  /** The 500 answer of a caught throw on the verify path. */
  function VerifyFailure(cfg: Config, e: Thrown): (resp: Response)
    ensures resp.status == 500
    ensures resp.body.Keys == {"success", "verified", "error"}
    ensures resp.body["success"] == JBool(false) && resp.body["verified"] == JBool(false)
    ensures cfg.verboseErrors && e.isError ==> resp.body["error"] == JStr(e.message)
    ensures !(cfg.verboseErrors && e.isError) ==> resp.body["error"] == JStr(VerificationFailed)
  {
    Response(ServerError500, map[
      "success" := JBool(false),
      "verified" := JBool(false),
      "error" := JStr(ErrorText(cfg, e, VerificationFailed))])
  }

  /** Verify a submitted solution: extract the payload; reject a falsy one
      with 400 without consulting the provider; otherwise check it with the
      signing key and `true` as third argument, and answer 200 if it verified and 400 if it
      did not, with `success` and `verified` both equal to the verdict; a
      throw anywhere on the way is answered with 500. */
  function HandleVerify(cfg: Config, body: RequestBody, stamp: string, check: Checker): (r: VerifyResult)
    ensures r.response.status in {200, 400, 500}
    ensures r.call.Some? ==> r.call.value.secret == cfg.hmacKey && r.call.value.flag
    ensures r.call.Some? <==>
      body.Parsed? && ReadPayload(body.json).Success? && Truthy(ReadPayload(body.json).value)
    ensures r.call.Some? ==> r.call.value.payload == ReadPayload(body.json).value
  {
    match body
    case Unparseable(msg) => VerifyResult(VerifyFailure(cfg, Thrown(msg, true)), None)
    case Parsed(json) =>
      match ReadPayload(json)
      case Failure(e) => VerifyResult(VerifyFailure(cfg, e), None)
      case Success(payload) =>
        if !Truthy(payload) then
          VerifyResult(Response(BadRequest400, map[
            "success" := JBool(false),
            "verified" := JBool(false),
            "error" := JStr(MissingPayload)]), None)
        else
          var call := VerifyCall(payload, cfg.hmacKey, true);
          match check(call.payload, call.secret, call.flag)
          case Ok(verified) =>
            var fields := map["success" := JBool(verified), "verified" := JBool(verified)];
            VerifyResult(Response(if verified then Ok200 else BadRequest400, WithTimestamp(cfg, fields, stamp)), Some(call))
          case Err(e) => VerifyResult(VerifyFailure(cfg, e), Some(call))
  }

  /** What the provider said about the call the handler made. */
  function Verdict(r: VerifyResult, check: Checker): Outcome<bool>
    requires r.call.Some?
  {
    check(r.call.value.payload, r.call.value.secret, r.call.value.flag)
  }

  /** A falsy payload (`false`, `0`, `""`) is answered 400 "Missing payload"
      and the provider is never consulted. */
  lemma MissingPayloadRejected(cfg: Config, json: Json, stamp: string, check: Checker)
    requires ReadPayload(json).Success? && !Truthy(ReadPayload(json).value)
    ensures var r := HandleVerify(cfg, Parsed(json), stamp, check);
      && r.call == None
      && r.response == Response(400, map[
           "success" := JBool(false), "verified" := JBool(false), "error" := JStr(MissingPayload)])
  {
  }

  /** When the provider answers, `success` and `verified` both carry its
      verdict, the status is 200 exactly when it is true (400 otherwise),
      and the timestamp is present exactly when configured. */
  lemma VerdictShapesResponse(cfg: Config, body: RequestBody, stamp: string, check: Checker)
    requires HandleVerify(cfg, body, stamp, check).call.Some?
    requires Verdict(HandleVerify(cfg, body, stamp, check), check).Ok?
    ensures var r := HandleVerify(cfg, body, stamp, check);
      var v := Verdict(r, check).value;
      && r.response.body["success"] == JBool(v)
      && r.response.body["verified"] == JBool(v)
      && (r.response.status == 200 <==> v)
      && (r.response.status == 400 <==> !v)
      && ("timestamp" in r.response.body <==> cfg.includeTimestamp)
      && "error" !in r.response.body
  {
  }

  /** Every throw on the verify path (unparseable body, a `null` body, a
      provider failure) is answered 500 with both flags false and the error
      text of that very throw: its message under verbose errors for an
      `Error`, "Verification failed" otherwise. */
  lemma ThrowAnswered500(cfg: Config, body: RequestBody, stamp: string, check: Checker)
    ensures var r := HandleVerify(cfg, body, stamp, check);
      r.response.status == 500 ==>
        && r.response.body["success"] == JBool(false)
        && r.response.body["verified"] == JBool(false)
        && "timestamp" !in r.response.body
    ensures var r := HandleVerify(cfg, body, stamp, check);
      body.Unparseable? ==>
        r.response.body["error"] == JStr(ErrorText(cfg, Thrown(body.message, true), VerificationFailed))
    ensures var r := HandleVerify(cfg, body, stamp, check);
      body.Parsed? && body.json == JNull ==>
        r.response.body["error"] == JStr(ErrorText(cfg, Thrown(NullPropertyRead, true), VerificationFailed))
    ensures var r := HandleVerify(cfg, body, stamp, check);
      r.call.Some? && Verdict(r, check).Err? ==>
        r.response.body["error"] == JStr(ErrorText(cfg, Verdict(r, check).thrown, VerificationFailed))
    ensures var r := HandleVerify(cfg, body, stamp, check);
      r.response.status == 500 <==>
        || body.Unparseable?
        || body.json == JNull
        || (r.call.Some? && Verdict(r, check).Err?)
  {
  }

  /** Verification fails closed: `success` is true only when the provider was
      consulted on the extracted payload with the signing key and `true`
      and said true; in every other case the status is 400 or 500. */
  lemma FailsClosed(cfg: Config, body: RequestBody, stamp: string, check: Checker)
    ensures var r := HandleVerify(cfg, body, stamp, check);
      "success" in r.response.body && r.response.body["success"] == JBool(true) ==>
        && r.call.Some?
        && r.call.value == VerifyCall(ReadPayload(body.json).value, cfg.hmacKey, true)
        && Verdict(r, check) == Ok(true)
    ensures var r := HandleVerify(cfg, body, stamp, check);
      r.response.status == 200 <==> r.call.Some? && Verdict(r, check) == Ok(true)
  {
  }

  /** The verbose-errors setting changes only error texts, never a status
      code or whether the provider is consulted. */
  lemma VerbosityKeepsStatus(cfg: Config, body: RequestBody, stamp: string, check: Checker, now: int, issue: Issuer)
    ensures var quiet := cfg.(verboseErrors := false);
      var loud := cfg.(verboseErrors := true);
      && HandleVerify(quiet, body, stamp, check).response.status == HandleVerify(loud, body, stamp, check).response.status
      && HandleVerify(quiet, body, stamp, check).call == HandleVerify(loud, body, stamp, check).call
      && HandleChallenge(quiet, now, stamp, issue).response.status == HandleChallenge(loud, now, stamp, issue).response.status
  {
  }

  /** An explicit empty-string payload is kept (`??` only falls back on
      missing or `null`) and then rejected as missing; a `null` payload falls
      back to the whole body, which is then what the provider checks. */
  lemma NullishFallback(cfg: Config, stamp: string, check: Checker)
    ensures var empty := JObj(map["payload" := JStr("")]);
      HandleVerify(cfg, Parsed(empty), stamp, check).response.status == 400
      && HandleVerify(cfg, Parsed(empty), stamp, check).call == None
    ensures var nulled := JObj(map["payload" := JNull]);
      HandleVerify(cfg, Parsed(nulled), stamp, check).call == Some(VerifyCall(nulled, cfg.hmacKey, true))
  {
  }

  /** A body without a `payload` field is itself the payload; even the empty
      object `{}` is truthy, so it is passed to the provider, and a 400 it
      gets is the provider's refusal, never the missing-payload answer. */
  lemma EmptyBodyChecked(cfg: Config, stamp: string, check: Checker)
    ensures var r := HandleVerify(cfg, Parsed(JObj(map[])), stamp, check);
      && r.call == Some(VerifyCall(JObj(map[]), cfg.hmacKey, true))
      && (r.response.status == 400 ==> "error" !in r.response.body)
  {
  }

  /** A challenge answer carries every field of the token unchanged (apart
      from a field named `timestamp`), and a `timestamp` exactly when
      configured. */
  lemma ChallengePassesTokenThrough(cfg: Config, now: int, stamp: string, issue: Issuer)
    requires issue(ChallengeRequest(cfg, now)).Ok?
    requires "timestamp" !in issue(ChallengeRequest(cfg, now)).value
    ensures var token := issue(ChallengeRequest(cfg, now)).value;
      var body := HandleChallenge(cfg, now, stamp, issue).response.body;
      && ("timestamp" in body <==> cfg.includeTimestamp)
      && body.Keys == token.Keys + (if cfg.includeTimestamp then {"timestamp"} else {})
      && forall k :: k in token ==> body[k] == token[k]
  {
  }
}
