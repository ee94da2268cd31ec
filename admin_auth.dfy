/** The admin-auth endpoint: a rate limit of ten attempts a minute per
    address, the captcha guard when a secret is configured, and a comparison
    of the submitted password with `ADMIN_PASSWORD`, which hands out a fresh
    session token on a match. */
module AdminAuth {
  import opened Wrappers
  import opened Identity
  import opened Counters
  import opened Captcha

  const LoginLimit := 10
  const LoginWindowMs := 60000

  /** The members `password` and `captcha_token` of the body; `None` is a
      member that is missing, null or not a string. */
  datatype LoginFields = LoginFields(password: Option<string>, captchaToken: Option<string>)

  datatype LoginBody = Malformed(message: string) | Parsed(fields: LoginFields)

  datatype LoginRequest =
    | Preflight
    | Post(headers: Headers, body: LoginBody)

  /** The environment (`ADMIN_PASSWORD` and the captcha secrets), the
      provider's answer and the UUID `crypto.randomUUID()` would return. */
  datatype LoginWorld = LoginWorld(adminPassword: Option<string>, env: Env, reply: Captcha.Reply, freshToken: string)

  datatype LoginReply =
    | CorsOk
    | Failure(status: int, error: string)
    | LoggedIn(token: string)

  /** The reply, the counter records left behind, the admin action logged
      and the captcha request sent. */
  datatype LoginOutcome = LoginOutcome(
    records: map<string, CounterRecord>,
    reply: LoginReply,
    action: Option<string>,
    captcha: Option<CaptchaRequest>)

  /** The captcha guard passes: no secret is configured, or a token was sent
      and the provider confirms it. */
  predicate CaptchaGuardPasses(f: LoginFields, world: LoginWorld) {
    Truthy(Secret(world.env)) ==> Truthy(f.captchaToken) && Confirms(world.reply)
  }

  /** The stages after the body is parsed: 500 without a configured
      password, 400 when the captcha guard fails, then the comparison, which
      logs in or answers 401. */
  function Authenticate(records: map<string, CounterRecord>, f: LoginFields, world: LoginWorld): (o: LoginOutcome)
    ensures o.records == records
    ensures !Truthy(world.adminPassword) ==>
              o.reply == Failure(500, "Admin password not configured") && o.action.None? && o.captcha.None?
    ensures Truthy(world.adminPassword) && !CaptchaGuardPasses(f, world) ==>
              o.reply == Failure(400, "Captcha verification failed") && o.action == Some("captcha_failed")
    ensures Truthy(world.adminPassword) && CaptchaGuardPasses(f, world) && f.password != world.adminPassword ==>
              o.reply == Failure(401, "Invalid password") && o.action == Some("login_failed")
    ensures o.reply.LoggedIn? <==>
              && Truthy(world.adminPassword)
              && (Truthy(Secret(world.env)) ==> Truthy(f.captchaToken) && Confirms(world.reply))
              && f.password == world.adminPassword
    ensures o.reply.LoggedIn? ==> o.reply.token == world.freshToken && o.action == Some("login_success")
    ensures o.captcha.Some? ==> Truthy(Secret(world.env)) && Truthy(world.adminPassword)
  {
    if !Truthy(world.adminPassword) then
      LoginOutcome(records, Failure(500, "Admin password not configured"), None, None)
    else if Truthy(Secret(world.env)) && !Truthy(f.captchaToken) then
      LoginOutcome(records, Failure(400, "Captcha verification failed"), Some("captcha_failed"), None)
    else
      var v := VerifyCaptcha(world.env, f.captchaToken, world.reply);
      var sent := if Truthy(Secret(world.env)) then v.request else None;
      if Truthy(Secret(world.env)) && !v.passed then
        LoginOutcome(records, Failure(400, "Captcha verification failed"), Some("captcha_failed"), sent)
      else if f.password == world.adminPassword then
        LoginOutcome(records, LoggedIn(world.freshToken), Some("login_success"), sent)
      else
        LoginOutcome(records, Failure(401, "Invalid password"), Some("login_failed"), sent)
  }

  /** The admin-auth handler on `req` at `now`: the rate limit (429), the
      body (500 when it does not parse), then `Authenticate`. */
  function HandleLogin(records: map<string, CounterRecord>, req: LoginRequest, world: LoginWorld, now: int): (o: LoginOutcome)
    ensures req.Preflight? ==> o == LoginOutcome(records, CorsOk, None, None)
    ensures req.Post? ==>
              var ip := GetRealIP(req.headers);
              var rate := RateStep(Get(records, RateKey(ip)), LoginLimit, LoginWindowMs, now);
              && RateKey(ip) in o.records && o.records[RateKey(ip)] == rate.record
              && (rate.result.Denied? <==> o.action == Some("rate_limit_exceeded"))
              && (rate.result.Denied? ==> o.reply == Failure(429, "Rate limit exceeded") && o.captcha.None?)
              && (rate.result.Allowed? && req.body.Malformed? ==>
                    o.reply == Failure(500, req.body.message) && o.action.None?)
              && (rate.result.Allowed? && req.body.Parsed? ==>
                    o == Authenticate(records[RateKey(ip) := rate.record], req.body.fields, world))
    ensures o.reply.LoggedIn? ==> req.Post? && req.body.Parsed?
    ensures o.reply.Failure? ==> o.reply.status == 400 || o.reply.status == 401 || o.reply.status == 429 || o.reply.status == 500
  {
    match req
    case Preflight => LoginOutcome(records, CorsOk, None, None)
    case Post(headers, body) =>
      var ip := GetRealIP(headers);
      var rate := RateStep(Get(records, RateKey(ip)), LoginLimit, LoginWindowMs, now);
      var records1 := records[RateKey(ip) := rate.record];
      if rate.result.Denied? then
        LoginOutcome(records1, Failure(429, rate.result.reason), Some("rate_limit_exceeded"), None)
      else
        match body
        case Malformed(message) => LoginOutcome(records1, Failure(500, message), None, None)
        case Parsed(f) => Authenticate(records1, f, world)
  }

  /** The handler against the endpoint's own counter store. */
  method AdminLogin(counters: CounterStore, req: LoginRequest, world: LoginWorld, now: int)
    returns (reply: LoginReply, action: Option<string>, captcha: Option<CaptchaRequest>)
    modifies counters
    ensures var o := HandleLogin(old(counters.records), req, world, now);
            reply == o.reply && action == o.action && captcha == o.captcha && counters.records == o.records
  {
    captcha := None;
    if req.Preflight? {
      return CorsOk, None, None;
    }
    var ip := GetRealIP(req.headers);
    var rateCheck := counters.CheckRateLimit(ip, LoginLimit, LoginWindowMs, now);
    if !rateCheck.Allowed? {
      return Failure(429, rateCheck.reason), Some("rate_limit_exceeded"), None;
    }
    if req.body.Malformed? {
      return Failure(500, req.body.message), None, None;
    }
    var f := req.body.fields;
    if !Truthy(world.adminPassword) {
      return Failure(500, "Admin password not configured"), None, None;
    }
    if Truthy(Secret(world.env)) {
      if !Truthy(f.captchaToken) {
        return Failure(400, "Captcha verification failed"), Some("captcha_failed"), None;
      }
      var v := VerifyCaptcha(world.env, f.captchaToken, world.reply);
      captcha := v.request;
      if !v.passed {
        return Failure(400, "Captcha verification failed"), Some("captcha_failed"), captcha;
      }
    }
    if f.password == world.adminPassword {
      return LoggedIn(world.freshToken), Some("login_success"), captcha;
    }
    return Failure(401, "Invalid password"), Some("login_failed"), captcha;
  }

  // ---------------------------------------------------------------------
  // Properties

  /** A login succeeds exactly when the attempt is within the rate limit,
      the body parses, a password is configured, the captcha (if one is
      configured) is confirmed, and the submitted password equals it. */
  lemma LoginSucceedsIffPasswordMatches(records: map<string, CounterRecord>, headers: Headers,
                                        f: LoginFields, world: LoginWorld, now: int)
    ensures HandleLogin(records, Post(headers, Parsed(f)), world, now).reply.LoggedIn? <==>
              && RateStep(Get(records, RateKey(GetRealIP(headers))), LoginLimit, LoginWindowMs, now).result.Allowed?
              && Truthy(world.adminPassword)
              && (Truthy(Secret(world.env)) ==> Truthy(f.captchaToken) && Confirms(world.reply))
              && f.password == world.adminPassword
  {
  }

  /** Without `ADMIN_PASSWORD` nobody logs in, whatever they submit; in
      particular an empty or missing password never matches an unset one.
      Every attempt that passes the rate limit and parses is answered 500,
      before the captcha is consulted. */
  lemma UnconfiguredPasswordAdmitsNobody(records: map<string, CounterRecord>, req: LoginRequest,
                                         world: LoginWorld, now: int)
    requires !Truthy(world.adminPassword)
    ensures !HandleLogin(records, req, world, now).reply.LoggedIn?
    ensures req.Post? && req.body.Parsed? &&
            RateStep(Get(records, RateKey(GetRealIP(req.headers))), LoginLimit, LoginWindowMs, now).result.Allowed? ==>
              var o := HandleLogin(records, req, world, now);
              o.reply == Failure(500, "Admin password not configured") && o.captcha.None?
  {
  }

  /** With a password and a captcha secret configured, an attempt whose
      token is missing or not confirmed is answered 400 and logged as
      `captcha_failed`, and the password it carries makes no difference. */
  lemma CaptchaFailureIs400(records: map<string, CounterRecord>, headers: Headers,
                            f: LoginFields, other: Option<string>, world: LoginWorld, now: int)
    requires RateStep(Get(records, RateKey(GetRealIP(headers))), LoginLimit, LoginWindowMs, now).result.Allowed?
    requires Truthy(world.adminPassword) && Truthy(Secret(world.env))
    requires !(Truthy(f.captchaToken) && Confirms(world.reply))
    ensures var o := HandleLogin(records, Post(headers, Parsed(f)), world, now);
            o.reply == Failure(400, "Captcha verification failed") && o.action == Some("captcha_failed")
    ensures HandleLogin(records, Post(headers, Parsed(f)), world, now) ==
              HandleLogin(records, Post(headers, Parsed(f.(password := other))), world, now)
  {
  }

  /** An attempt that passes every guard but carries the wrong password is
      answered 401 and logged as `login_failed`. */
  lemma WrongPasswordIs401(records: map<string, CounterRecord>, headers: Headers,
                           f: LoginFields, world: LoginWorld, now: int)
    requires RateStep(Get(records, RateKey(GetRealIP(headers))), LoginLimit, LoginWindowMs, now).result.Allowed?
    requires Truthy(world.adminPassword) && CaptchaGuardPasses(f, world)
    requires f.password != world.adminPassword
    ensures var o := HandleLogin(records, Post(headers, Parsed(f)), world, now);
            o.reply == Failure(401, "Invalid password") && o.action == Some("login_failed")
  {
  }

  /** A throttled attempt is answered 429 whatever its body and whatever the
      configured password: a throttled client learns nothing about the
      password. */
  lemma ThrottledAttemptLearnsNothing(records: map<string, CounterRecord>, headers: Headers,
                                      b1: LoginBody, b2: LoginBody, w1: LoginWorld, w2: LoginWorld, now: int)
    requires RateStep(Get(records, RateKey(GetRealIP(headers))), LoginLimit, LoginWindowMs, now).result.Denied?
    ensures HandleLogin(records, Post(headers, b1), w1, now) == HandleLogin(records, Post(headers, b2), w2, now)
    ensures HandleLogin(records, Post(headers, b1), w1, now).reply == Failure(429, "Rate limit exceeded")
  {
  }

  /** The outcome of the attempts `calls` (instants, in order) from one
      address whose records start as `data`, each with the same body. */
  function LoginRun(data: Option<CounterRecord>, headers: Headers, f: LoginFields, world: LoginWorld,
                    calls: seq<int>): (replies: seq<LoginReply>)
    ensures |replies| == |calls|
    decreases |calls|
  {
    if calls == [] then []
    else
      var ip := GetRealIP(headers);
      var records := if data.Some? then map[RateKey(ip) := data.value] else map[];
      var o := HandleLogin(records, Post(headers, Parsed(f)), world, calls[0]);
      [o.reply] + LoginRun(Get(o.records, RateKey(ip)), headers, f, world, calls[1..])
  }

  /** How many of `replies` got past the rate limit. */
  function PastRateLimit(replies: seq<LoginReply>): nat {
    if replies == [] then 0
    else (if replies[0] == Failure(429, "Rate limit exceeded") then 0 else 1) + PastRateLimit(replies[1..])
  }

  /** Every attempt of a run gets past the rate limit exactly when the bare
      limiter would admit it. */
  lemma {:induction false} LoginRunFollowsRateRun(data: Option<CounterRecord>, headers: Headers, f: LoginFields,
                                                  world: LoginWorld, calls: seq<int>)
    ensures PastRateLimit(LoginRun(data, headers, f, world, calls)) == Admitted(RateRun(data, LoginLimit, LoginWindowMs, calls))
    decreases |calls|
  {
    if calls != [] {
      var ip := GetRealIP(headers);
      var records := if data.Some? then map[RateKey(ip) := data.value] else map[];
      assert Get(records, RateKey(ip)) == data;
      var o := HandleLogin(records, Post(headers, Parsed(f)), world, calls[0]);
      var s := RateStep(data, LoginLimit, LoginWindowMs, calls[0]);
      assert Get(o.records, RateKey(ip)) == Some(s.record);
      LoginRunFollowsRateRun(Some(s.record), headers, f, world, calls[1..]);
      var run := LoginRun(data, headers, f, world, calls);
      assert run == [o.reply] + LoginRun(Some(s.record), headers, f, world, calls[1..]);
      assert run[1..] == LoginRun(Some(s.record), headers, f, world, calls[1..]);
      var rr := RateRun(data, LoginLimit, LoginWindowMs, calls);
      assert rr == [s.result] + RateRun(Some(s.record), LoginLimit, LoginWindowMs, calls[1..]);
      assert rr[1..] == RateRun(Some(s.record), LoginLimit, LoginWindowMs, calls[1..]);
    }
  }

  /** Password guessing is bounded: of the attempts an address makes within
      one minute of its first, at most ten reach the password comparison. */
  lemma AtMostTenGuessesPerMinute(data: Option<CounterRecord>, headers: Headers, f: LoginFields,
                                  world: LoginWorld, calls: seq<int>)
    requires |calls| >= 1 && !WindowOpen(data, calls[0])
    requires forall i :: 0 <= i < |calls| ==> calls[i] <= calls[0] + LoginWindowMs
    ensures PastRateLimit(LoginRun(data, headers, f, world, calls)) <= LoginLimit
  {
    LoginRunFollowsRateRun(data, headers, f, world, calls);
    AtMostLimitPerWindow(data, LoginLimit, LoginWindowMs, calls);
  }
}
