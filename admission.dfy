/** `performSecurityCheck`: the shared admission pipeline. It runs the rate
    limit (30 per minute), the flood check (10 per 5 seconds), the ban
    lookup, the TOR and VPN/proxy lists and, when asked to, the captcha, in
    that order, and stops at the first check that denies, logging an event
    for every denial but the captcha one. */
module Admission {
  import opened Wrappers
  import opened Identity
  import opened Counters
  import opened Bans
  import opened Addresses
  import opened Captcha

  const RateLimit := 30
  const RateWindowMs := 60000
  const FloodLimit := 10
  const FloodWindowMs := 5000

  /** What the pipeline reads besides its stores: the request headers, the
      hashed identity, whether a captcha is required and the token sent. */
  datatype Request = Request(
    headers: Headers,
    ipHash: string,
    requireCaptcha: bool,
    captchaToken: Option<string>)

  /** What the outside world supplies: the TOR and VPN lists as read from
      disk, the environment, and the captcha provider's answer. */
  datatype World = World(torList: seq<string>, vpnList: seq<string>, env: Env, reply: Reply)

  /** The verdict, the stores it leaves, the security event it logs and the
      captcha request it sends. */
  datatype Outcome = Outcome(
    records: map<string, CounterRecord>,
    bans: map<string, BanEntry>,
    result: CheckResult,
    event: Option<string>,
    captcha: Option<CaptchaRequest>)

  /** The captcha stage: `!captchaToken || !(await verifyCaptcha(captchaToken))`. */
  function CaptchaStage(req: Request, world: World): (v: Verification)
    ensures v.passed ==> Truthy(req.captchaToken) && Confirms(world.reply)
  {
    if !Truthy(req.captchaToken) then Verification(false, None)
    else VerifyCaptcha(world.env, req.captchaToken, world.reply)
  }

  /** The rate limit refuses the address. */
  predicate Throttled(records: map<string, CounterRecord>, ip: string, now: int) {
    RateStep(Get(records, RateKey(ip)), RateLimit, RateWindowMs, now).result.Denied?
  }

  /** The flood check refuses the address; the rate stage never touches the
      flood record, so it is read from the stores as they were. */
  predicate Flooded(records: map<string, CounterRecord>, ip: string, now: int) {
    FloodStep(Get(records, FloodKey(ip)), FloodLimit, FloodWindowMs, now).result.Denied?
  }

  /** The captcha stage passes: a token was sent, a secret is configured and
      the provider confirms. */
  predicate CaptchaPasses(req: Request, world: World) {
    Truthy(req.captchaToken) && Truthy(Secret(world.env)) && Confirms(world.reply)
  }

  /** `performSecurityCheck(req, ipHash, supabase, requireCaptcha, captchaToken)` at `now`:
      admitted exactly when every stage passes; otherwise the first stage
      that refuses decides the verdict and the event logged. */
  function SecurityCheck(records: map<string, CounterRecord>, bans: map<string, BanEntry>,
                         req: Request, world: World, now: int): (o: Outcome)
    ensures var ip := GetRealIP(req.headers);
            o.result.Allowed? <==>
              && !Throttled(records, ip, now) && !Flooded(records, ip, now)
              && !ActiveBan(bans, req.ipHash, now)
              && !Listed(ip, world.torList) && !Listed(ip, world.vpnList)
              && (req.requireCaptcha ==> CaptchaPasses(req, world))
    ensures var ip := GetRealIP(req.headers);
            (o.event == Some("rate_limit") <==> Throttled(records, ip, now))
            && (Throttled(records, ip, now) ==>
                  o.result == RateStep(Get(records, RateKey(ip)), RateLimit, RateWindowMs, now).result)
    ensures var ip := GetRealIP(req.headers);
            (o.event == Some("ddos") <==> !Throttled(records, ip, now) && Flooded(records, ip, now))
            && (o.event == Some("ddos") ==> o.result == Denied("Flood protection triggered", Some(15)))
    ensures var ip := GetRealIP(req.headers);
            (o.event == Some("banned_ip") <==>
               !Throttled(records, ip, now) && !Flooded(records, ip, now) && ActiveBan(bans, req.ipHash, now))
            && (o.event == Some("banned_ip") ==> o.result == Denied(ReasonOf(bans[req.ipHash]), None))
    ensures var ip := GetRealIP(req.headers);
            (o.event == Some("tor_blocked") <==>
               && !Throttled(records, ip, now) && !Flooded(records, ip, now)
               && !ActiveBan(bans, req.ipHash, now) && Listed(ip, world.torList))
            && (o.event == Some("tor_blocked") ==> o.result == Denied("TOR exit node detected", None))
    ensures var ip := GetRealIP(req.headers);
            (o.event == Some("vpn_blocked") <==>
               && !Throttled(records, ip, now) && !Flooded(records, ip, now)
               && !ActiveBan(bans, req.ipHash, now) && !Listed(ip, world.torList) && Listed(ip, world.vpnList))
            && (o.event == Some("vpn_blocked") ==> o.result == Denied("VPN/Proxy detected", None))
    ensures o.event.Some? ==> o.result.Denied?
    ensures o.result.Denied? && o.event.None? ==> o.result == Denied("Captcha verification failed", None)
    ensures o.captcha.Some? ==> req.requireCaptcha
    ensures o.bans == bans || o.bans == bans - {req.ipHash}
    ensures var ip := GetRealIP(req.headers);
            var rate := RateStep(Get(records, RateKey(ip)), RateLimit, RateWindowMs, now);
            var flood := FloodStep(Get(records, FloodKey(ip)), FloodLimit, FloodWindowMs, now);
            o.records == if rate.result.Denied? then records[RateKey(ip) := rate.record]
                         else records[RateKey(ip) := rate.record][FloodKey(ip) := flood.record]
    ensures var ip := GetRealIP(req.headers);
            o.bans == if Throttled(records, ip, now) || Flooded(records, ip, now) then bans
                      else BanLookup(bans, req.ipHash, now).table
  {
    var ip := GetRealIP(req.headers);
    var rate := RateStep(Get(records, RateKey(ip)), RateLimit, RateWindowMs, now);
    var records1 := records[RateKey(ip) := rate.record];
    KeysAreDistinct(ip, ip);
    assert Get(records1, FloodKey(ip)) == Get(records, FloodKey(ip));
    if rate.result.Denied? then Outcome(records1, bans, rate.result, Some("rate_limit"), None)
    else
      var flood := FloodStep(Get(records1, FloodKey(ip)), FloodLimit, FloodWindowMs, now);
      var records2 := records1[FloodKey(ip) := flood.record];
      if flood.result.Denied? then Outcome(records2, bans, flood.result, Some("ddos"), None)
      else
        var ban := BanLookup(bans, req.ipHash, now);
        if ban.result.Denied? then Outcome(records2, ban.table, ban.result, Some("banned_ip"), None)
        else if Listed(ip, world.torList) then
          Outcome(records2, ban.table, Denied("TOR exit node detected", None), Some("tor_blocked"), None)
        else if Listed(ip, world.vpnList) then
          Outcome(records2, ban.table, Denied("VPN/Proxy detected", None), Some("vpn_blocked"), None)
        else if req.requireCaptcha then
          var v := CaptchaStage(req, world);
          if !v.passed then Outcome(records2, ban.table, Denied("Captcha verification failed", None), None, v.request)
          else Outcome(records2, ban.table, Allowed, None, v.request)
        else Outcome(records2, ban.table, Allowed, None, None)
  }

  /** The pipeline run against the process's counter store and the ban table. */
  method PerformSecurityCheck(counters: CounterStore, banTable: BanTable, req: Request, world: World, now: int)
    returns (r: CheckResult, event: Option<string>, captcha: Option<CaptchaRequest>)
    modifies counters, banTable
    ensures var o := SecurityCheck(old(counters.records), old(banTable.entries), req, world, now);
            r == o.result && event == o.event && captcha == o.captcha
            && counters.records == o.records && banTable.entries == o.bans
  {
    captcha := None;
    var ip := GetRealIP(req.headers);
    var rateLimit := counters.CheckRateLimit(ip, RateLimit, RateWindowMs, now);
    if !rateLimit.Allowed? {
      return rateLimit, Some("rate_limit"), None;
    }
    var floodCheck := counters.CheckFloodProtection(ip, FloodLimit, FloodWindowMs, now);
    if !floodCheck.Allowed? {
      return floodCheck, Some("ddos"), None;
    }
    var banCheck := banTable.CheckIPBan(req.ipHash, now);
    if !banCheck.Allowed? {
      return banCheck, Some("banned_ip"), None;
    }
    var torCheck := CheckTorExitNode(ip, world.torList);
    if !torCheck.Allowed? {
      return torCheck, Some("tor_blocked"), None;
    }
    var vpnCheck := CheckVPNProxy(ip, world.vpnList);
    if !vpnCheck.Allowed? {
      return vpnCheck, Some("vpn_blocked"), None;
    }
    if req.requireCaptcha {
      var v := CaptchaStage(req, world);
      captcha := v.request;
      if !v.passed {
        return Denied("Captcha verification failed", None), None, captcha;
      }
    }
    return Allowed, None, captcha;
  }

  // ---------------------------------------------------------------------
  // Properties of the pipeline

  /** A throttled request stops at the rate limit: its flood record, the ban
      table and the captcha provider are left alone, and it is logged as
      `rate_limit`. */
  lemma ThrottledStopsEarly(records: map<string, CounterRecord>, bans: map<string, BanEntry>,
                            req: Request, world: World, now: int)
    requires RateStep(Get(records, RateKey(GetRealIP(req.headers))), RateLimit, RateWindowMs, now).result.Denied?
    ensures var o := SecurityCheck(records, bans, req, world, now);
            && o.bans == bans && o.captcha.None? && o.event == Some("rate_limit")
            && o.result.reason == "Rate limit exceeded"
            && Get(o.records, FloodKey(GetRealIP(req.headers))) == Get(records, FloodKey(GetRealIP(req.headers)))
  {
    var ip := GetRealIP(req.headers);
    KeysAreDistinct(ip, ip);
  }

  /** A request that passes the rate limit but floods stops at the flood
      check: it is refused for 15 minutes and logged as `ddos`, its flood
      record is left as it was, and neither the ban table nor the captcha
      provider is consulted. */
  lemma FloodStopsEarly(records: map<string, CounterRecord>, bans: map<string, BanEntry>,
                        req: Request, world: World, now: int)
    requires !Throttled(records, GetRealIP(req.headers), now)
    requires Flooded(records, GetRealIP(req.headers), now)
    ensures var o := SecurityCheck(records, bans, req, world, now);
            && o.result == Denied("Flood protection triggered", Some(15)) && o.event == Some("ddos")
            && o.bans == bans && o.captcha.None?
            && Get(o.records, FloodKey(GetRealIP(req.headers))) == Get(records, FloodKey(GetRealIP(req.headers)))
  {
    var ip := GetRealIP(req.headers);
    KeysAreDistinct(ip, ip);
  }

  /** A banned hash is refused with the ban's reason before the lists and the
      captcha are consulted. */
  lemma BannedBeforeLists(records: map<string, CounterRecord>, bans: map<string, BanEntry>,
                          req: Request, world: World, now: int)
    requires var ip := GetRealIP(req.headers);
             && RateStep(Get(records, RateKey(ip)), RateLimit, RateWindowMs, now).result.Allowed?
             && FloodStep(Get(records[RateKey(ip) := RateStep(Get(records, RateKey(ip)), RateLimit, RateWindowMs, now).record], FloodKey(ip)),
                          FloodLimit, FloodWindowMs, now).result.Allowed?
    requires req.ipHash != "" && req.ipHash in bans && !Expired(bans[req.ipHash], now)
    ensures var o := SecurityCheck(records, bans, req, world, now);
            o.result == Denied(ReasonOf(bans[req.ipHash]), None) && o.event == Some("banned_ip")
            && o.captcha.None? && o.bans == bans
  {
  }

  /** The captcha is consulted only when the caller asks for it, and a
      request without a token is refused without contacting the provider. */
  lemma CaptchaOnlyWhenRequired(records: map<string, CounterRecord>, bans: map<string, BanEntry>,
                                req: Request, world: World, now: int)
    ensures !req.requireCaptcha ==> SecurityCheck(records, bans, req, world, now).captcha.None?
    ensures !Truthy(req.captchaToken) ==> SecurityCheck(records, bans, req, world, now).captcha.None?
    ensures req.requireCaptcha && !Truthy(req.captchaToken) ==>
              SecurityCheck(records, bans, req, world, now).result.Denied?
  {
  }

  /** With no captcha secret configured, a check that requires a captcha
      admits nobody: it is refused at some stage, whatever the token. */
  lemma NoSecretRequiredCaptchaDeniesAll(records: map<string, CounterRecord>, bans: map<string, BanEntry>,
                                         req: Request, world: World, now: int)
    requires req.requireCaptcha
    requires !Truthy(world.env.hcaptchaSecret) && !Truthy(world.env.recaptchaSecret)
    ensures SecurityCheck(records, bans, req, world, now).result.Denied?
    ensures SecurityCheck(records, bans, req, world, now).captcha.None?
  {
  }

  /** Each request records itself in the rate window of its own address and
      in no other address's records. */
  lemma OnlyOwnCountersChange(records: map<string, CounterRecord>, bans: map<string, BanEntry>,
                              req: Request, world: World, now: int, key: string)
    requires key != RateKey(GetRealIP(req.headers)) && key != FloodKey(GetRealIP(req.headers))
    ensures Get(SecurityCheck(records, bans, req, world, now).records, key) == Get(records, key)
  {
  }

  /** An address with no counter history, on empty TOR and VPN lists and with
      no captcha required, is admitted exactly when its hash carries no
      active ban; an expired ban is gone from the table afterwards. */
  lemma FreshAddressAdmittedUnlessBanned(bans: map<string, BanEntry>, req: Request, world: World, now: int)
    requires world.torList == [] && world.vpnList == [] && !req.requireCaptcha
    ensures var o := SecurityCheck(map[], bans, req, world, now);
            && (o.result.Allowed? <==> !(req.ipHash != "" && req.ipHash in bans && !Expired(bans[req.ipHash], now)))
            && (req.ipHash != "" && req.ipHash in bans && Expired(bans[req.ipHash], now) ==>
                  o.result.Allowed? && req.ipHash !in o.bans)
  {
    var ip := GetRealIP(req.headers);
    KeysAreDistinct(ip, ip);
    assert Get(map[], RateKey(ip)) == None;
  }

  /** One client's requests at the instants `calls`, each against the stores
      the previous one left. */
  function SecurityRun(records: map<string, CounterRecord>, bans: map<string, BanEntry>,
                       req: Request, world: World, calls: seq<int>): (outcomes: seq<Outcome>)
    ensures |outcomes| == |calls|
    decreases |calls|
  {
    if calls == [] then []
    else
      var o := SecurityCheck(records, bans, req, world, calls[0]);
      [o] + SecurityRun(o.records, o.bans, req, world, calls[1..])
  }

  /** How many of `outcomes` got past the rate limit. */
  function PastRateLimit(outcomes: seq<Outcome>): nat {
    if outcomes == [] then 0
    else (if outcomes[0].event == Some("rate_limit") then 0 else 1) + PastRateLimit(outcomes[1..])
  }

  /** How many of `outcomes` were admitted. */
  function AdmittedRequests(outcomes: seq<Outcome>): nat {
    if outcomes == [] then 0
    else (if outcomes[0].result.Allowed? then 1 else 0) + AdmittedRequests(outcomes[1..])
  }

  /** A request of a run gets past the rate limit exactly when the bare
      limiter, fed the same instants, would admit it; only those can be
      admitted. */
  lemma {:induction false} SecurityRunFollowsRateRun(records: map<string, CounterRecord>, bans: map<string, BanEntry>,
                                                     req: Request, world: World, calls: seq<int>)
    ensures var run := SecurityRun(records, bans, req, world, calls);
            var ip := GetRealIP(req.headers);
            && PastRateLimit(run) == Admitted(RateRun(Get(records, RateKey(ip)), RateLimit, RateWindowMs, calls))
            && AdmittedRequests(run) <= PastRateLimit(run)
    decreases |calls|
  {
    if calls != [] {
      var ip := GetRealIP(req.headers);
      var o := SecurityCheck(records, bans, req, world, calls[0]);
      var s := RateStep(Get(records, RateKey(ip)), RateLimit, RateWindowMs, calls[0]);
      KeysAreDistinct(ip, ip);
      assert Get(o.records, RateKey(ip)) == Some(s.record);
      SecurityRunFollowsRateRun(o.records, o.bans, req, world, calls[1..]);
      var run := SecurityRun(records, bans, req, world, calls);
      assert run[1..] == SecurityRun(o.records, o.bans, req, world, calls[1..]);
      var rr := RateRun(Get(records, RateKey(ip)), RateLimit, RateWindowMs, calls);
      assert rr[1..] == RateRun(Some(s.record), RateLimit, RateWindowMs, calls[1..]);
    }
  }

  /** Of the requests an address makes within one minute of opening its rate
      window, at most 30 are admitted. */
  lemma AtMostThirtyPerMinute(records: map<string, CounterRecord>, bans: map<string, BanEntry>,
                              req: Request, world: World, calls: seq<int>)
    requires |calls| >= 1 && !WindowOpen(Get(records, RateKey(GetRealIP(req.headers))), calls[0])
    requires forall i :: 0 <= i < |calls| ==> calls[i] <= calls[0] + RateWindowMs
    ensures AdmittedRequests(SecurityRun(records, bans, req, world, calls)) <= RateLimit
  {
    SecurityRunFollowsRateRun(records, bans, req, world, calls);
    AtMostLimitPerWindow(Get(records, RateKey(GetRealIP(req.headers))), RateLimit, RateWindowMs, calls);
  }
}
