/** The fixed-window rate limiter: a per-identifier request counter that
    admits up to a maximum number of requests per window and rejects the
    rest with status 429 ("Too Many Requests", section 4 of RFC 6585), plus
    the periodic sweep that drops expired counters. The shared store is a
    value threaded through each step, and the clock reading `now` (integer
    milliseconds) is a parameter. The window is deliberately fixed, not
    sliding: up to twice the maximum can be admitted across a window
    boundary. */
module RateLimit {
  import opened Wrappers
  import Http
  import Decimal

  /** The rate-limit settings: `RATE_LIMIT_ENABLED`, `RATE_LIMIT_WINDOW_MS`
      and `RATE_LIMIT_MAX_REQUESTS`. */
  datatype Limits = Limits(enabled: bool, windowMs: nat, maxRequests: nat)
  {
    /** The bounds startup validation enforces: both numbers positive. */
    predicate Valid()
    {
      windowMs > 0 && maxRequests > 0
    }
  }

  /** One identifier's counter: requests seen in the current window and the
      instant (in milliseconds) the window ends. */
  datatype Record = Record(count: nat, resetTime: int)

  type Store = map<string, Record>

  /** The two request headers the identifier is taken from. */
  datatype RequestHeaders = RequestHeaders(forwardedFor: Option<string>, realIp: Option<string>)

  /** The bucket shared by every request that names no address. */
  const Unknown: string := "unknown"

  /** The header `x-forwarded-for` if it is non-empty, else `x-real-ip` if it
      is non-empty, else the shared `unknown` bucket. */
  function Identifier(h: RequestHeaders): (id: string)
    ensures id != ""
    ensures Http.TruthyText(h.forwardedFor) ==> id == h.forwardedFor.value
    ensures !Http.TruthyText(h.forwardedFor) && Http.TruthyText(h.realIp) ==> id == h.realIp.value
    ensures !Http.TruthyText(h.forwardedFor) && !Http.TruthyText(h.realIp) ==> id == Unknown
  {
    if Http.TruthyText(h.forwardedFor) then h.forwardedFor.value
    else if Http.TruthyText(h.realIp) then h.realIp.value
    else Unknown
  }

  /** `Math.ceil(a / 1000)` for an integer number of milliseconds `a`: the
      least whole number of seconds covering `a`. */
  function CeilSeconds(a: int): (s: int)
    ensures 1000 * (s - 1) < a <= 1000 * s
  {
    if a >= 0 then (a + 999) / 1000 else -((-a) / 1000)
  }

  /** The `X-RateLimit-*` headers: the maximum, the requests left in the
      window and the window's end (sent as an ISO date). */
  datatype LimitHeaders = LimitHeaders(limit: nat, remaining: nat, reset: int)

  /** The four outcomes of one pass through the middleware. */
  datatype Decision =
    | AdmitDisabled
    | AdmitFresh
    | AdmitCounted(headers: LimitHeaders)
    | Reject(retryAfter: nat, headers: LimitHeaders)
  {
    predicate Admitted()
    {
      !Reject?
    }
  }

  datatype StepResult = StepResult(decision: Decision, store: Store)

  /** The middleware on one request arriving at `now`. */
  function Step(lim: Limits, store: Store, h: RequestHeaders, now: int): (r: StepResult)
    ensures !lim.enabled ==> r == StepResult(AdmitDisabled, store)
    ensures r.decision.Reject? ==> r.store == store
    ensures forall k :: k in store && k != Identifier(h) ==> k in r.store && r.store[k] == store[k]
    ensures r.store.Keys <= store.Keys + {Identifier(h)}
  {
    if !lim.enabled then StepResult(AdmitDisabled, store)
    else
      var id := Identifier(h);
      if id !in store || store[id].resetTime < now then
        StepResult(AdmitFresh, store[id := Record(1, now + lim.windowMs)])
      else
        var rec := store[id];
        if rec.count >= lim.maxRequests then
          var headers := LimitHeaders(lim.maxRequests, 0, rec.resetTime);
          StepResult(Reject(CeilSeconds(rec.resetTime - now), headers), store)
        else
          var rec' := rec.(count := rec.count + 1);
          var headers := LimitHeaders(lim.maxRequests, lim.maxRequests - rec'.count, rec'.resetTime);
          StepResult(AdmitCounted(headers), store[id := rec'])
  }

  /** The property names every plain JavaScript object inherits from
      `Object.prototype`. */
  const InheritedKeys: set<string> := {
    "constructor", "hasOwnProperty", "isPrototypeOf", "propertyIsEnumerable",
    "toString", "toLocaleString", "valueOf", "__proto__",
    "__defineGetter__", "__defineSetter__", "__lookupGetter__", "__lookupSetter__"}

  /** The message of the `RangeError` that formatting an invalid date throws. */
  const InvalidTimeValue: string := "Invalid time value"

  /** The middleware exactly as written, with the store a plain object
      literal. An identifier that names an inherited member, and is not a
      key of its own, finds that member instead of "no record". The member
      is truthy and has no `resetTime`, so neither window test holds; the
      count becomes `NaN`, and formatting the missing reset time as a date
      throws. Every other request behaves as `Step`. */
  function StepAsWritten(lim: Limits, store: Store, h: RequestHeaders, now: int): (r: Result<StepResult, string>)
    ensures r.Failure? <==> lim.enabled && Identifier(h) in InheritedKeys && Identifier(h) !in store
    ensures r.Failure? ==> r.error == InvalidTimeValue
    ensures r.Success? ==> r.value == Step(lim, store, h, now)
    ensures r.Success? ==> forall k :: k in InheritedKeys && k !in store ==> k !in r.value.store
  {
    var id := Identifier(h);
    if lim.enabled && id in InheritedKeys && id !in store then Failure(InvalidTimeValue)
    else Success(Step(lim, store, h, now))
  }

  /** A client sending `x-forwarded-for: constructor` (or any other inherited
      name) is never admitted and never answered 429 by the code as written:
      the request throws. Since the code as written never stores such a
      name, this holds for every request of that client. `Step`, which treats
      every identifier as an ordinary key, opens a window for it instead. */
  lemma InheritedKeyThrows(lim: Limits, store: Store, name: string, now: int)
    requires lim.enabled && name in InheritedKeys && name !in store
    ensures StepAsWritten(lim, store, RequestHeaders(Some(name), None), now) == Failure(InvalidTimeValue)
    ensures Step(lim, store, RequestHeaders(Some(name), None), now).decision == AdmitFresh
  {
  }

  /** The status code of a rejection. */
  const TooManyRequests: nat := 429

  /** The JSON answer of a rejected request. */
  function Rejection(d: Decision): (resp: Http.Response)
    requires d.Reject?
    ensures resp.status == 429
    ensures resp.body.Keys == {"error", "retryAfter"}
    ensures resp.body["error"] == Http.JStr("Too many requests")
    ensures resp.body["retryAfter"] == Http.JNum(d.retryAfter as real)
  {
    Http.Response(TooManyRequests, map["error" := Http.JStr("Too many requests"), "retryAfter" := Http.JNum(d.retryAfter as real)])
  }

  /** The text of the `Retry-After` header of a rejection. */
  function RetryAfterValue(d: Decision): (t: string)
    requires d.Reject?
    ensures Decimal.IsDigits(t) && (|t| > 1 ==> t[0] != '0')
    ensures Decimal.ToNat(t) == d.retryAfter
  {
    Decimal.FromNatRoundTrip(d.retryAfter);
    Decimal.FromNat(d.retryAfter)
  }

  /** The periodic cleanup: drop every record whose window ended strictly
      before `now`. */
  function Sweep(store: Store, now: int): (r: Store)
    ensures forall k :: k in r <==> k in store && store[k].resetTime >= now
    ensures forall k :: k in r ==> r[k] == store[k]
  {
    map k | k in store && !(store[k].resetTime < now) :: store[k]
  }

  /** Every counter is between 1 and the maximum. */
  predicate CountsWithin(lim: Limits, store: Store)
  {
    forall k :: k in store ==> 1 <= store[k].count <= lim.maxRequests
  }

  /** No window ends more than one window length after `now`. */
  predicate ResetsWithin(lim: Limits, store: Store, now: int)
  {
    forall k :: k in store ==> store[k].resetTime <= now + lim.windowMs
  }

  // ----- single steps -----

  /** With rate limiting off every request is admitted and nothing is
      recorded. */
  lemma DisabledAdmits(lim: Limits, store: Store, h: RequestHeaders, now: int)
    requires !lim.enabled
    ensures Step(lim, store, h, now).decision == AdmitDisabled
    ensures Step(lim, store, h, now).store == store
  {
  }

  /** A first request, or one arriving after its window ended, opens a new
      window with count 1 whatever the old count was. A window whose end
      equals `now` is still running. */
  lemma ExpiredOrMissingOpensWindow(lim: Limits, store: Store, h: RequestHeaders, now: int)
    requires lim.enabled
    ensures var id := Identifier(h);
      var r := Step(lim, store, h, now);
      (id !in store || store[id].resetTime < now) <==>
        (r.decision == AdmitFresh && r.store == store[id := Record(1, now + lim.windowMs)])
  {
  }

  /** A request in a running window that has used up the maximum is rejected,
      the store is untouched, and the retry delay is the rest of the window
      rounded up to whole seconds. */
  lemma FullWindowRejects(lim: Limits, store: Store, h: RequestHeaders, now: int)
    requires lim.enabled
    requires Identifier(h) in store
    requires now <= store[Identifier(h)].resetTime
    ensures var rec := store[Identifier(h)];
      var r := Step(lim, store, h, now);
      r.decision.Reject? <==> rec.count >= lim.maxRequests
    ensures var rec := store[Identifier(h)];
      var r := Step(lim, store, h, now);
      r.decision.Reject? ==>
        && r.store == store
        && 1000 * (r.decision.retryAfter - 1) < rec.resetTime - now <= 1000 * r.decision.retryAfter
        && r.decision.headers == LimitHeaders(lim.maxRequests, 0, rec.resetTime)
  {
  }

  /** A request in a running window below the maximum is admitted and adds
      exactly one to its counter; the remaining-quota header is what is
      left. */
  lemma BelowMaxCounts(lim: Limits, store: Store, h: RequestHeaders, now: int)
    requires lim.enabled
    requires Identifier(h) in store
    requires now <= store[Identifier(h)].resetTime
    requires store[Identifier(h)].count < lim.maxRequests
    ensures var id := Identifier(h);
      var rec := store[id];
      var r := Step(lim, store, h, now);
      && r.decision.AdmitCounted?
      && r.store == store[id := Record(rec.count + 1, rec.resetTime)]
      && r.decision == AdmitCounted(LimitHeaders(lim.maxRequests, lim.maxRequests - (rec.count + 1), rec.resetTime))
      && r.decision.headers.remaining + r.store[id].count == lim.maxRequests
  {
  }

  /** Counters stay between 1 and the maximum, whatever the clock does. */
  lemma StepKeepsCountsWithin(lim: Limits, store: Store, h: RequestHeaders, now: int)
    requires lim.Valid()
    requires CountsWithin(lim, store)
    ensures CountsWithin(lim, Step(lim, store, h, now).store)
  {
  }

  /** On a clock that does not run backwards, no window ends more than one
      window length ahead. */
  lemma StepKeepsResetsWithin(lim: Limits, store: Store, h: RequestHeaders, now: int, now': int)
    requires ResetsWithin(lim, store, now)
    requires now <= now'
    ensures ResetsWithin(lim, Step(lim, store, h, now').store, now')
  {
  }

  /** The retry delay of a rejection is at least zero and, on a clock that
      does not run backwards, at most the window length in whole seconds. */
  lemma RetryAfterBounded(lim: Limits, store: Store, h: RequestHeaders, now: int, now': int)
    requires ResetsWithin(lim, store, now)
    requires now <= now'
    requires Step(lim, store, h, now').decision.Reject?
    ensures 0 <= Step(lim, store, h, now').decision.retryAfter <= CeilSeconds(lim.windowMs)
  {
  }

  // ----- the sweep -----

  /** Sweeping twice at the same instant is sweeping once. */
  lemma SweepIdempotent(store: Store, now: int)
    ensures Sweep(Sweep(store, now), now) == Sweep(store, now)
  {
  }

  /** The sweep only removes records, so the counter bound survives it. */
  lemma SweepKeepsCountsWithin(lim: Limits, store: Store, now: int)
    requires CountsWithin(lim, store)
    ensures CountsWithin(lim, Sweep(store, now))
  {
  }

  /** A sweep that runs no later than a request cannot be observed: the
      request is decided the same way, and the resulting store is what the
      sweep would leave of the store without it. In particular a record
      installed for the request is never swept. */
  lemma SweepUnobservable(lim: Limits, store: Store, h: RequestHeaders, t: int, now: int)
    requires t <= now
    ensures Step(lim, Sweep(store, t), h, now).decision == Step(lim, store, h, now).decision
    ensures Step(lim, Sweep(store, t), h, now).store == Sweep(Step(lim, store, h, now).store, t)
  {
    var id := Identifier(h);
    var s1 := Step(lim, Sweep(store, t), h, now).store;
    var s2 := Sweep(Step(lim, store, h, now).store, t);
    assert s1.Keys == s2.Keys;
  }

  // ----- sequences of requests -----

  /** One request: its headers and arrival instant. */
  datatype Request = Request(headers: RequestHeaders, now: int)

  /** The decisions for a series of requests handled one after the other,
      and the store they leave. */
  function Run(lim: Limits, store: Store, reqs: seq<Request>): (r: (seq<Decision>, Store))
    ensures |r.0| == |reqs|
    decreases |reqs|
  {
    if |reqs| == 0 then ([], store)
    else
      var step := Step(lim, store, reqs[0].headers, reqs[0].now);
      var rest := Run(lim, step.store, reqs[1..]);
      ([step.decision] + rest.0, rest.1)
  }

  /** All requests of the series come from `id` no later than `until`. */
  predicate FromBefore(reqs: seq<Request>, id: string, until: int)
  {
    forall i :: 0 <= i < |reqs| ==> Identifier(reqs[i].headers) == id && reqs[i].now <= until
  }

  /** With rate limiting off, any number of requests is admitted and nothing
      is recorded. */
  lemma {:induction false} DisabledAdmitsAll(lim: Limits, store: Store, reqs: seq<Request>)
    requires !lim.enabled
    ensures forall i :: 0 <= i < |reqs| ==> Run(lim, store, reqs).0[i] == AdmitDisabled
    ensures Run(lim, store, reqs).1 == store
  {
    if |reqs| > 0 {
      DisabledAdmitsAll(lim, store, reqs[1..]);
    }
  }

  /** `d` is the decision the `n`-th request of a running window gets:
      counted while `n` is below the maximum, rejected from then on. */
  predicate DecidedByPosition(d: Decision, n: int, max: nat)
  {
    (d.AdmitCounted? <==> n < max) && (d.Reject? <==> n >= max)
  }

  /** Inside a running window that already counted `c` requests, request
      `i` of the series is admitted exactly when `c + i` is below the
      maximum, and rejected otherwise. */
  lemma {:induction false} RunningWindow(lim: Limits, store: Store, id: string, reqs: seq<Request>, i: nat)
    requires lim.enabled
    requires id in store && store[id].count <= lim.maxRequests
    requires FromBefore(reqs, id, store[id].resetTime)
    requires i < |reqs|
    ensures DecidedByPosition(Run(lim, store, reqs).0[i], store[id].count + i, lim.maxRequests)
    decreases i
  {
    var step := Step(lim, store, reqs[0].headers, reqs[0].now);
    var rec := store[id];
    assert Identifier(reqs[0].headers) == id;
    if rec.count < lim.maxRequests {
      assert step.store == store[id := Record(rec.count + 1, rec.resetTime)];
    } else {
      assert step.store == store;
    }
    if i > 0 {
      assert FromBefore(reqs[1..], id, step.store[id].resetTime);
      RunningWindow(lim, step.store, id, reqs[1..], i - 1);
    }
  }

  /** Starting from a fresh window opened by the first request, the first
      `maxRequests` requests of the window are admitted and every later one
      in the same window is rejected. */
  lemma WindowAdmitsExactlyMax(lim: Limits, store: Store, reqs: seq<Request>)
    requires lim.Valid() && lim.enabled
    requires |reqs| >= 1
    requires var id := Identifier(reqs[0].headers);
      id !in store || store[id].resetTime < reqs[0].now
    requires FromBefore(reqs, Identifier(reqs[0].headers), reqs[0].now + lim.windowMs)
    ensures var ds := Run(lim, store, reqs).0;
      && ds[0] == AdmitFresh
      && forall i :: 0 <= i < |reqs| ==> (ds[i].Admitted() <==> i < lim.maxRequests)
  {
    var id := Identifier(reqs[0].headers);
    var step := Step(lim, store, reqs[0].headers, reqs[0].now);
    assert step.store[id] == Record(1, reqs[0].now + lim.windowMs);
    var ds := Run(lim, store, reqs).0;
    var rest := Run(lim, step.store, reqs[1..]).0;
    assert ds == [step.decision] + rest;
    assert FromBefore(reqs[1..], id, step.store[id].resetTime);
    forall i | 1 <= i < |reqs|
      ensures ds[i].Admitted() <==> i < lim.maxRequests
    {
      RunningWindow(lim, step.store, id, reqs[1..], i - 1);
      assert ds[i] == rest[i - 1];
    }
  }

  /** A window of 60000 ms with a maximum of 2: requests one and two from
      1.2.3.4 pass, and a third within the same minute is rejected with a
      retry delay between 0 and 60 seconds. */
  lemma ScenarioTwoPerMinute(store: Store, t: int, d1: nat, d2: nat)
    requires "1.2.3.4" !in store
    requires d1 <= d2 <= 60000
    ensures var lim := Limits(true, 60000, 2);
      var h := RequestHeaders(Some("1.2.3.4"), None);
      var reqs := [Request(h, t), Request(h, t + d1), Request(h, t + d2)];
      var ds := Run(lim, store, reqs).0;
      && ds[0].Admitted() && ds[1].Admitted() && ds[2].Reject?
      && 0 <= ds[2].retryAfter <= 60
  {
    var lim := Limits(true, 60000, 2);
    var h := RequestHeaders(Some("1.2.3.4"), None);
    var reqs := [Request(h, t), Request(h, t + d1), Request(h, t + d2)];
    WindowAdmitsExactlyMax(lim, store, reqs);
    var s1 := Step(lim, store, h, t).store;
    var s2 := Step(lim, s1, h, t + d1).store;
    assert s2["1.2.3.4"] == Record(2, t + 60000);
    assert reqs[1..][1..] == [Request(h, t + d2)];
    assert Run(lim, s2, reqs[1..][1..]).0 == [Step(lim, s2, h, t + d2).decision];
    assert Run(lim, s1, reqs[1..]).0[1] == Step(lim, s2, h, t + d2).decision;
    assert Run(lim, store, reqs).0[2] == Step(lim, s2, h, t + d2).decision;
  }

  /** The fixed window's accepted burst: a full window that ends at `now`
      still rejects at `now`, yet one millisecond later a new window opens, so
      up to twice the maximum can pass around a window boundary. */
  lemma BoundaryBurst(lim: Limits, store: Store, h: RequestHeaders, now: int)
    requires lim.Valid() && lim.enabled
    requires Identifier(h) in store
    requires store[Identifier(h)] == Record(lim.maxRequests, now)
    ensures Step(lim, store, h, now).decision.Reject?
    ensures Step(lim, store, h, now).decision.retryAfter == 0
    ensures Step(lim, store, h, now + 1).decision == AdmitFresh
  {
  }
}
