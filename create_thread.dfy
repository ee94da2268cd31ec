/** The create-thread endpoint: its own per-process counter store, the ban
    lookup, sanitisation, the content classifier and the captcha guard in
    front of the `threads` insert. Each response carries its HTTP status. */
module CreateThread {
  import opened Wrappers
  import opened JsText
  import opened Identity
  import opened Counters
  import opened Bans
  import opened ContentFilter
  import opened Captcha

  /** The members of the JSON body the handler reads; `None` is a member
      that is missing or null. */
  datatype ThreadFields = ThreadFields(
    ipHash: Option<string>,
    captchaToken: Option<string>,
    boardId: Option<string>,
    title: Option<string>,
    content: Option<string>,
    imageUrl: Option<string>,
    imageName: Option<string>)

  /** The request: an OPTIONS preflight, or a POST whose body did or did not
      parse as JSON (`Malformed` carries the parser's message). */
  datatype ThreadRequest =
    | Preflight
    | Post(headers: Headers, body: ThreadBody)

  datatype ThreadBody = Malformed(message: string) | Parsed(fields: ThreadFields)

  /** The row inserted into `threads`. */
  datatype ThreadRow = ThreadRow(
    boardId: Option<string>,
    title: Option<string>,
    content: string,
    imageUrl: Option<string>,
    imageName: Option<string>,
    ipHash: Option<string>)

  datatype Reply =
    | CorsOk
    | Failure(status: int, error: string, banned: bool)
    | Created(row: ThreadRow)

  /** What the outside world supplies: the environment and the captcha
      provider's answer, and the error the insert reports, if any. */
  datatype ThreadWorld = ThreadWorld(env: Env, reply: Captcha.Reply, insertError: Option<string>)

  datatype ThreadOutcome = ThreadOutcome(
    records: map<string, CounterRecord>,
    bans: map<string, BanEntry>,
    reply: Reply,
    event: Option<string>,
    captcha: Option<CaptchaRequest>)

  /** What the stages after the parse decide. They take no counters, so
      they can neither read nor change them. */
  datatype ParseOutcome = ParseOutcome(
    bans: map<string, BanEntry>,
    reply: Reply,
    event: Option<string>,
    captcha: Option<CaptchaRequest>)

  /** `value || null` */
  function OrNull(value: Option<string>): (r: Option<string>)
    ensures r.Some? <==> Truthy(value)
    ensures r.Some? ==> r == value
  {
    if Truthy(value) then value else None
  }

  /** `title ? sanitizeInput(title) : null` */
  function SanitizedTitle(title: Option<string>): (r: Option<string>)
    ensures r.Some? <==> Truthy(title)
    ensures r.Some? ==> r.value == SanitizeInput(title.value, MaxTextLength)
  {
    if Truthy(title) then Some(SanitizeInput(title.value, MaxTextLength)) else None
  }

  /** The row built from sanitised fields. */
  function RowOf(f: ThreadFields): (row: ThreadRow)
    ensures row.content == SanitizeField(f.content, MaxTextLength)
    ensures row.title == SanitizedTitle(f.title)
    ensures row.ipHash.Some? ==> row.ipHash.value != ""
  {
    ThreadRow(f.boardId, SanitizedTitle(f.title), SanitizeField(f.content, MaxTextLength),
              OrNull(f.imageUrl), OrNull(f.imageName), OrNull(f.ipHash))
  }

  /** The captcha guard of the handler passes: no secret is configured, or
      a token was sent and the provider confirms it. */
  predicate CaptchaGuardPasses(f: ThreadFields, world: ThreadWorld) {
    Truthy(Secret(world.env)) ==> Truthy(f.captchaToken) && Confirms(world.reply)
  }

  /** The stages after the body is parsed: ban, content, classifier,
      captcha, insert. The first stage that refuses decides the reply: 403
      for a ban, 400 for empty content, a classifier verdict or a failed
      captcha, 500 for an insert error. */
  function AfterParse(bans: map<string, BanEntry>, f: ThreadFields, world: ThreadWorld, now: int): (o: ParseOutcome)
    ensures o.bans == BanLookup(bans, f.ipHash.GetOr(""), now).table
    ensures o.event.None? || o.event == Some("banned_ip") || o.event == Some("profanity_blocked")
    ensures var h := f.ipHash.GetOr("");
            (ActiveBan(bans, h, now) <==> o.event == Some("banned_ip"))
            && (ActiveBan(bans, h, now) ==>
                  o.reply == Failure(403, ReasonOf(bans[h]), true) && o.captcha.None?)
    ensures var h := f.ipHash.GetOr("");
            var content := SanitizeField(f.content, MaxTextLength);
            !ActiveBan(bans, h, now) && content == "" ==>
              o.reply == Failure(400, "Invalid content", false) && o.event.None? && o.captcha.None?
    ensures var h := f.ipHash.GetOr("");
            var content := SanitizeField(f.content, MaxTextLength);
            (o.event == Some("profanity_blocked") <==>
               !ActiveBan(bans, h, now) && content != "" && ProfanityVerdict(content).Denied?)
            && (o.event == Some("profanity_blocked") ==>
                  o.reply == Failure(400, ProfanityVerdict(content).reason, false) && o.captcha.None?)
    ensures var h := f.ipHash.GetOr("");
            var content := SanitizeField(f.content, MaxTextLength);
            !ActiveBan(bans, h, now) && content != "" && ProfanityVerdict(content).Allowed?
            && !CaptchaGuardPasses(f, world) ==>
              o.reply == Failure(400, "Captcha verification failed", false) && o.event.None?
    ensures var h := f.ipHash.GetOr("");
            var content := SanitizeField(f.content, MaxTextLength);
            var passes := !ActiveBan(bans, h, now) && content != "" && ProfanityVerdict(content).Allowed?
                          && CaptchaGuardPasses(f, world);
            (passes && world.insertError.Some? ==> o.reply == Failure(500, world.insertError.value, false))
            && (o.reply.Created? <==> passes && world.insertError.None?)
    ensures o.reply.Created? ==> o.reply == Created(RowOf(f)) && o.event.None?
    ensures o.reply.Failure? ==> o.reply.status == 400 || o.reply.status == 403 || o.reply.status == 500
  {
    var ban := BanLookup(bans, f.ipHash.GetOr(""), now);
    if ban.result.Denied? then
      ParseOutcome(ban.table, Failure(403, ban.result.reason, true), Some("banned_ip"), None)
    else
      var content := SanitizeField(f.content, MaxTextLength);
      if content == "" then
        ParseOutcome(ban.table, Failure(400, "Invalid content", false), None, None)
      else
        var verdict := ProfanityVerdict(content);
        if verdict.Denied? then
          ParseOutcome(ban.table, Failure(400, verdict.reason, false), Some("profanity_blocked"), None)
        else
          var v := VerifyCaptcha(world.env, f.captchaToken, world.reply);
          var sent := if Truthy(Secret(world.env)) && Truthy(f.captchaToken) then v.request else None;
          if Truthy(Secret(world.env)) && (!Truthy(f.captchaToken) || !v.passed) then
            ParseOutcome(ban.table, Failure(400, "Captcha verification failed", false), None, sent)
          else if world.insertError.Some? then
            ParseOutcome(ban.table, Failure(500, world.insertError.value, false), None, sent)
          else
            ParseOutcome(ban.table, Created(RowOf(f)), None, sent)
  }

  /** The endpoint's own rate limit (30 a minute) refuses the address. */
  predicate ThreadThrottled(records: map<string, CounterRecord>, ip: string, now: int) {
    RateStep(Get(records, RateKey(ip)), 30, 60000, now).result.Denied?
  }

  /** The endpoint's own flood check (10 in 5 seconds) refuses the address;
      the rate stage never touches the flood record. */
  predicate ThreadFlooded(records: map<string, CounterRecord>, ip: string, now: int) {
    FloodStep(Get(records, FloodKey(ip)), 10, 5000, now).result.Denied?
  }

  /** The create-thread handler on request `req` at `now`: the rate limit,
      then the flood check (both 429), then the body (500 when it does not
      parse), then the stages of `AfterParse`. */
  function HandleCreateThread(records: map<string, CounterRecord>, bans: map<string, BanEntry>,
                              req: ThreadRequest, world: ThreadWorld, now: int): (o: ThreadOutcome)
    ensures req.Preflight? ==> o == ThreadOutcome(records, bans, CorsOk, None, None)
    ensures req.Post? ==>
              var ip := GetRealIP(req.headers);
              (ThreadThrottled(records, ip, now) <==> o.event == Some("rate_limit"))
              && (ThreadThrottled(records, ip, now) ==>
                    o.reply == Failure(429, "Rate limit exceeded", false) && o.bans == bans)
              && (o.event == Some("ddos") <==> !ThreadThrottled(records, ip, now) && ThreadFlooded(records, ip, now))
              && (o.event == Some("ddos") ==>
                    o.reply == Failure(429, "Flood protection triggered", false) && o.bans == bans)
    ensures req.Post? ==>
              var ip := GetRealIP(req.headers);
              var rate := RateStep(Get(records, RateKey(ip)), 30, 60000, now);
              var flood := FloodStep(Get(records, FloodKey(ip)), 10, 5000, now);
              o.records == if rate.result.Denied? then records[RateKey(ip) := rate.record]
                           else records[RateKey(ip) := rate.record][FloodKey(ip) := flood.record]
    ensures o.reply.Failure? && o.reply.status == 429 <==>
              req.Post? && (ThreadThrottled(records, GetRealIP(req.headers), now)
                            || ThreadFlooded(records, GetRealIP(req.headers), now))
    ensures req.Post? && !ThreadThrottled(records, GetRealIP(req.headers), now)
            && !ThreadFlooded(records, GetRealIP(req.headers), now) ==>
              match req.body
              case Malformed(message) =>
                o.reply == Failure(500, message, false) && o.event.None? && o.bans == bans
              case Parsed(f) =>
                var after := AfterParse(bans, f, world, now);
                o.reply == after.reply && o.event == after.event && o.captcha == after.captcha
                && o.bans == after.bans
    ensures o.reply.Failure? ==> o.reply.status == 400 || o.reply.status == 403 || o.reply.status == 429 || o.reply.status == 500
  {
    match req
    case Preflight => ThreadOutcome(records, bans, CorsOk, None, None)
    case Post(headers, body) =>
      var ip := GetRealIP(headers);
      var rate := RateStep(Get(records, RateKey(ip)), 30, 60000, now);
      var records1 := records[RateKey(ip) := rate.record];
      KeysAreDistinct(ip, ip);
      assert Get(records1, FloodKey(ip)) == Get(records, FloodKey(ip));
      if rate.result.Denied? then
        ThreadOutcome(records1, bans, Failure(429, rate.result.reason, false), Some("rate_limit"), None)
      else
        AfterRateLimit(records1, bans, ip, body, world, now)
  }

  /** The handler once the rate limit has admitted `ip`: the flood check
      (429), then the body (500 when it does not parse), then the stages of
      `AfterParse`. */
  function AfterRateLimit(records: map<string, CounterRecord>, bans: map<string, BanEntry>, ip: string,
                          body: ThreadBody, world: ThreadWorld, now: int): (o: ThreadOutcome)
    ensures o.event != Some("rate_limit")
    ensures o.records == records[FloodKey(ip) := FloodStep(Get(records, FloodKey(ip)), 10, 5000, now).record]
    ensures o.event == Some("ddos") <==> ThreadFlooded(records, ip, now)
    ensures ThreadFlooded(records, ip, now) ==>
              o.reply == Failure(429, "Flood protection triggered", false) && o.bans == bans
    ensures o.reply.Failure? && o.reply.status == 429 <==> ThreadFlooded(records, ip, now)
    ensures !ThreadFlooded(records, ip, now) ==>
              match body
              case Malformed(message) =>
                o.reply == Failure(500, message, false) && o.event.None? && o.bans == bans
              case Parsed(f) =>
                var after := AfterParse(bans, f, world, now);
                o.reply == after.reply && o.event == after.event && o.captcha == after.captcha
                && o.bans == after.bans
    ensures o.reply.Failure? ==> o.reply.status == 400 || o.reply.status == 403 || o.reply.status == 429 || o.reply.status == 500
  {
    var flood := FloodStep(Get(records, FloodKey(ip)), 10, 5000, now);
    var records2 := records[FloodKey(ip) := flood.record];
    if flood.result.Denied? then
      ThreadOutcome(records2, bans, Failure(429, flood.result.reason, false), Some("ddos"), None)
    else
      match body
      case Malformed(message) => ThreadOutcome(records2, bans, Failure(500, message, false), None, None)
      case Parsed(f) =>
        var after := AfterParse(bans, f, world, now);
        ThreadOutcome(records2, after.bans, after.reply, after.event, after.captcha)
  }

  /** The handler against the endpoint's counter store and the ban table. */
  method CreateThreadHandler(counters: CounterStore, banTable: BanTable, req: ThreadRequest,
                             world: ThreadWorld, now: int)
    returns (reply: Reply, event: Option<string>, captcha: Option<CaptchaRequest>)
    modifies counters, banTable
    ensures var o := HandleCreateThread(old(counters.records), old(banTable.entries), req, world, now);
            reply == o.reply && event == o.event && captcha == o.captcha
            && counters.records == o.records && banTable.entries == o.bans
  {
    captcha := None;
    if req.Preflight? {
      return CorsOk, None, None;
    }
    var ip := GetRealIP(req.headers);
    var rateCheck := counters.CheckRateLimit(ip, 30, 60000, now);
    if !rateCheck.Allowed? {
      return Failure(429, rateCheck.reason, false), Some("rate_limit"), None;
    }
    var floodCheck := counters.CheckFloodProtection(ip, 10, 5000, now);
    if !floodCheck.Allowed? {
      return Failure(429, floodCheck.reason, false), Some("ddos"), None;
    }
    if req.body.Malformed? {
      return Failure(500, req.body.message, false), None, None;
    }
    var f := req.body.fields;
    var banCheck := banTable.CheckIPBan(f.ipHash.GetOr(""), now);
    if !banCheck.Allowed? {
      return Failure(403, banCheck.reason, true), Some("banned_ip"), None;
    }
    var sanitizedContent := SanitizeField(f.content, MaxTextLength);
    if sanitizedContent == "" {
      return Failure(400, "Invalid content", false), None, None;
    }
    var profanityCheck := CheckProfanity(sanitizedContent);
    if !profanityCheck.Allowed? {
      return Failure(400, profanityCheck.reason, false), Some("profanity_blocked"), None;
    }
    if Truthy(Secret(world.env)) {
      if !Truthy(f.captchaToken) {
        return Failure(400, "Captcha verification failed", false), None, None;
      }
      var v := VerifyCaptcha(world.env, f.captchaToken, world.reply);
      captcha := v.request;
      if !v.passed {
        return Failure(400, "Captcha verification failed", false), None, captcha;
      }
    }
    if world.insertError.Some? {
      return Failure(500, world.insertError.value, false), None, captcha;
    }
    return Created(RowOf(f)), None, captcha;
  }

  // ---------------------------------------------------------------------
  // Properties

  /** A thread is created exactly when every check passes and the insert
      succeeds; the stored row holds sanitised, non-empty content that
      passes the classifier. */
  lemma CreatedIffAllChecksPass(records: map<string, CounterRecord>, bans: map<string, BanEntry>,
                                req: ThreadRequest, world: ThreadWorld, now: int)
    ensures var o := HandleCreateThread(records, bans, req, world, now);
            o.reply.Created? <==>
              && req.Post? && req.body.Parsed?
              && !ThreadThrottled(records, GetRealIP(req.headers), now)
              && !ThreadFlooded(records, GetRealIP(req.headers), now)
              && !ActiveBan(bans, req.body.fields.ipHash.GetOr(""), now)
              && SanitizeField(req.body.fields.content, MaxTextLength) != ""
              && ProfanityVerdict(SanitizeField(req.body.fields.content, MaxTextLength)).Allowed?
              && CaptchaGuardPasses(req.body.fields, world)
              && world.insertError.None?
    ensures var o := HandleCreateThread(records, bans, req, world, now);
            o.reply.Created? ==>
              && o.reply.row == RowOf(req.body.fields)
              && o.reply.row.content != "" && |o.reply.row.content| <= MaxTextLength
              && '<' !in o.reply.row.content && '>' !in o.reply.row.content
  {
  }

  /** Content that sanitises to nothing (missing, or only markup, script
      schemes and white space) is refused with 400 before the classifier,
      and no captcha is requested. */
  lemma EmptyContentRefused(bans: map<string, BanEntry>, f: ThreadFields, world: ThreadWorld, now: int)
    requires SanitizeField(f.content, MaxTextLength) == ""
    requires !ActiveBan(bans, f.ipHash.GetOr(""), now)
    ensures AfterParse(bans, f, world, now).reply == Failure(400, "Invalid content", false)
    ensures AfterParse(bans, f, world, now).captcha.None?
  {
  }

  /** A banned poster gets 403 with `banned: true` and the ban's reason,
      whatever the body holds besides the hash. */
  lemma BannedPosterRefused(bans: map<string, BanEntry>, f: ThreadFields, world: ThreadWorld, now: int)
    requires f.ipHash.Some? && f.ipHash.value != "" && f.ipHash.value in bans
    requires !Expired(bans[f.ipHash.value], now)
    ensures AfterParse(bans, f, world, now).reply ==
              Failure(403, ReasonOf(bans[f.ipHash.value]), true)
    ensures AfterParse(bans, f, world, now).event == Some("banned_ip")
  {
  }

  /** A body that does not parse still counts against both windows: the
      records are those of an admitted request. */
  lemma MalformedBodyStillCounts(records: map<string, CounterRecord>, bans: map<string, BanEntry>,
                                 headers: Headers, message: string, world: ThreadWorld, now: int)
    requires var ip := GetRealIP(headers);
             RateStep(Get(records, RateKey(ip)), 30, 60000, now).result.Allowed?
    ensures var ip := GetRealIP(headers);
            var o := HandleCreateThread(records, bans, Post(headers, ThreadBody.Malformed(message)), world, now);
            && RateKey(ip) in o.records
            && o.records[RateKey(ip)] == RateStep(Get(records, RateKey(ip)), 30, 60000, now).record
            && o.reply.Failure? && o.reply.status in {429, 500}
  {
    KeysAreDistinct(GetRealIP(headers), GetRealIP(headers));
  }
}
