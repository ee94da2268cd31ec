# Admission checks of an anonymous posting board, in Dafny

This project models the server-side checks a pseudonymous image board runs
before it accepts new content, and the small client-side gates around them:

- **client address resolution** from proxy headers (`getRealIP`);
- the **fixed-window counter store** behind the rate limiter and the flood
  guard (`checkRateLimit`, `checkFloodProtection` and the per-endpoint
  copies). It is a class holding a `map<string, CounterRecord>` keyed by
  `rate_<ip>` and `flood_<ip>`, and time is an integer `now` in milliseconds;
- the **ban registry** with lazy expiry (`checkIPBan` and the check-ban
  endpoint). It is a class holding a `map<string, BanEntry>` keyed by the
  client's hashed identity;
- the **reputation filter**: `ipToNumber`, `isIPInRange` and the TOR and
  VPN/proxy list checks. JavaScript's number conversions (`parseInt` with
  and without a radix, NaN, ToInt32/ToUint32 and the shift count taken
  modulo 32) are written out over exact integers, without the rounding of
  doubles;
- the **content filters**: `sanitizeInput` with its 10000 and 200 character
  caps, and `checkProfanity`, whose tally loop is a method proved against a
  multiset specification;
- **captcha verification**. The provider's answer is an input, and only the
  guard and the failure rules are modelled;
- the **admission pipeline** `performSecurityCheck`, and the create-thread,
  admin-auth, admin-boards and check-ban handlers with their status codes;
- the **browser helpers** `sanitizeText`, `sanitizeSQL`, `validateInput` and
  `formatPostContent`;
- the **client hooks**: the ten-second posting cooldown (`useRateLimit`) and
  image upload validation (`useImageUpload`).

Each handler that changes a store is written twice. A pure function states
the reply and the new store, and the lemmas are about that function. A
method with a `modifies` clause runs against the class and is proved equal
to the function. The external verdicts are plain inputs: the captcha
provider's reply, the TOR and VPN lists, the environment variables, database
insert errors, the clock and the random parts of generated names.

Files: `wrappers.dfy` (Option, the check result), `jstext.dfy` (the
JavaScript string operations and regular-expression removals used),
`number_text.dfy`, `identity.dfy`, `counters.dfy`, `bans.dfy`,
`addresses.dfy`, `content.dfy`, `captcha.dfy`, `admission.dfy`,
`create_thread.dfy`, `admin_auth.dfy`, `admin_boards.dfy`, `check_ban.dfy`,
`client_sanitize.dfy`, `cooldown.dfy`, `image_upload.dfy`.

## Model

| member | source | states |
|---|---|---|
| Identity.GetRealIP | supabase/functions/_shared/security.ts:19-29 | the address is `cf-connecting-ip` if non-empty, else the trimmed first comma-separated element of `x-forwarded-for`, else `x-real-ip`, else "unknown" |
| Identity.ForwardedClient | supabase/functions/_shared/security.ts:25 | the forwarded-for element has no comma and no white space at either end |
| Identity.EdgeHeaderWins | supabase/functions/create-thread/index.ts:11-20 | once `cf-connecting-ip` is set, nothing written in the other two headers changes the address |
| Identity.LeftmostHopDecides | supabase/functions/admin-boards/index.ts:9-18 | only the hop before the first comma counts; appending hops changes nothing |
| Identity.BlankForwardedHopIsKept | supabase/functions/admin-auth/index.ts:11-20 | whenever `cf-connecting-ip` is unset and the forwarded-for value is only white space before its first comma, the address is "" and does not fall through to `x-real-ip` |
| Counters.KeysAreDistinct | supabase/functions/_shared/security.ts:32-70 | a `rate_` key never equals a `flood_` key, and each address has its own key of each kind |
| Counters.BlockMinutes | supabase/functions/_shared/security.ts:51 | the advised block is `min(strikes*5, 60)` and lies in [5, 60] once there is a strike |
| Counters.RateStep | supabase/functions/_shared/security.ts:32-63 | with no record or an expired one (`resetAt < now`) the record restarts at count 1 with 0 strikes and the call is admitted; otherwise it is admitted iff `count < limit` and the count grows by one; a denial keeps count and window, adds a strike and advises `BlockMinutes` of the new strike count, in [5, 60] |
| Counters.FloodStep | supabase/functions/_shared/security.ts:66-91 | the same window, but a denial stores the record unchanged and advises a fixed 15 minutes |
| Counters.CountStaysBounded | supabase/functions/_shared/security.ts:47-61 | with a positive limit, `count <= limit` is preserved by both checks |
| Counters.OpenWindowRun | supabase/functions/_shared/security.ts:46-58 | inside a running window the i-th further call is admitted iff `count + i < limit`, and each later denial carries one more strike than the previous one |
| Counters.OpenWindowAdmits | supabase/functions/_shared/security.ts:46-61 | inside a running window at most `limit - count` further calls are admitted |
| Counters.AtMostLimitPerWindow | supabase/functions/_shared/security.ts:37-61 | of calls that fall within one window from the call that opened it, at most `limit` are admitted |
| Counters.RateRunAppend | supabase/functions/_shared/security.ts:37-61 | checks made one after another: the verdicts for two runs of calls are the first run's, then the second's from the record the first left behind |
| Counters.OpenWindowKeepsEnd | supabase/functions/_shared/security.ts:44-60 | checks inside a running window never move its end |
| Counters.BoundaryAdmitsTwiceTheLimit | supabase/functions/_shared/security.ts:37-61 | the window is fixed: one call at `t`, `limit - 1` at `t + windowMs` and `limit` one millisecond later are all admitted, `2 * limit` in all |
| Counters.ThirtyFirstIsThrottled | supabase/functions/_shared/security.ts:317 | with 30 per 60000 ms, 31 calls within a minute from a fresh address: 30 admitted, the 31st denied with a 5 minute block |
| Counters.CounterStore.CheckRateLimit | supabase/functions/_shared/security.ts:32-63 | the store's `rate_` record and the verdict follow `RateStep`; no other key changes |
| Counters.CounterStore.CheckFloodProtection | supabase/functions/_shared/security.ts:66-91 | the store's `flood_` record and the verdict follow `FloodStep`; a denial leaves the store unchanged |
| Bans.ReasonOf | supabase/functions/_shared/security.ts:110-113 | the denial reason is the entry's reason when non-empty, else "IP banned" |
| Bans.Find | supabase/functions/check-ban/index.ts:29-36 | a lookup finds no entry, an expired entry (non-null `expires_at` before now) or an active one |
| Bans.BanLookup | supabase/functions/_shared/security.ts:94-116 | an empty hash is admitted without a lookup; an expired entry is deleted and admitted; a present unexpired entry denies with its reason; afterwards no expired entry for the hash remains |
| Bans.LookupIdempotent | supabase/functions/_shared/security.ts:104-107 | a second lookup at the same instant gives the same verdict and deletes nothing more |
| Bans.PermanentBanAlwaysDenies | supabase/functions/create-thread/index.ts:71-76 | an entry with null `expires_at` denies at every instant and is never deleted |
| Bans.OtherBansUntouched | supabase/functions/create-thread/index.ts:72-73 | a lookup deletes at most the entry of the hash it was asked about |
| Bans.BanTable.CheckIPBan | supabase/functions/create-thread/index.ts:62-80 | the table and the verdict follow `BanLookup` |
| Addresses.ParseInt | supabase/functions/_shared/security.ts:193 | `parseInt` yields a number iff, after leading white space, a digit or a sign followed by a digit comes first |
| Addresses.ParseDecimal | supabase/functions/_shared/security.ts:193 | a non-empty string of digits parses to its decimal value |
| Addresses.ParseIntNoRadix | supabase/functions/_shared/security.ts:183 | `parseInt` without a radix agrees with the radix-10 parse unless `0x`/`0X` follows the sign; after that prefix it yields a number iff a hexadecimal digit follows |
| Addresses.HexTextIsBase16 | supabase/functions/_shared/security.ts:183 | `0x` followed by hexadecimal digits parses to their base-16 value |
| Addresses.IpToNumber | supabase/functions/_shared/security.ts:192-194 | the result is an unsigned 32-bit value |
| Addresses.QuadValue | supabase/functions/_shared/security.ts:193 | the fold `(acc << 8) + octet` over four octets, then `>>> 0`, gives the big-endian value, even when the last shift overflows into the sign bit |
| Addresses.DottedQuadValue | supabase/functions/_shared/security.ts:192-194 | a dotted quad of decimal octets converts to `a*2^24 + b*2^16 + c*2^8 + d` |
| Addresses.UnparsableIsZero | supabase/functions/_shared/security.ts:192-194 | an address that does not start with a digit, such as "unknown", converts to 0 |
| Addresses.ClearedBits | supabase/functions/_shared/security.ts:183-187 | a prefix of 1 to 32 clears the low `32 - prefix` bits; the shift count is taken modulo 32 |
| Addresses.MaskNum | supabase/functions/_shared/security.ts:187 | `(0xFFFFFFFF << s) >>> 0` equals `2^32 - 2^s` |
| Addresses.IsIPInRange | supabase/functions/_shared/security.ts:181-190 | an address whose number equals that of the range's base lies in the range, whatever the prefix |
| Addresses.RangeParts | supabase/functions/_shared/security.ts:181-190 | `base/prefix` matches iff the two numbers agree after dropping the bits the radix-less parse of the prefix clears |
| Addresses.HexPrefixIsSlash24 | supabase/functions/_shared/security.ts:181-190 | a prefix written `0x18` is read as 24: the range compares the first three octets |
| Addresses.WholeWordPrefixIsExact | supabase/functions/_shared/security.ts:187-189 | a `/32` range matches only its own address, and so does `/0` because of the modulo-32 shift |
| Addresses.Slash24ByNumbers | supabase/functions/_shared/security.ts:181-190 | a `/24` range matches iff the numbers agree after dropping the low 8 bits |
| Addresses.SlashTwentyFour | supabase/functions/_shared/security.ts:192-194 | two quads agree without their low 8 bits iff their first three octets agree (so 10.0.0.5 is in 10.0.0.0/24 and 10.0.1.5 is not) |
| Addresses.UnparsableMatchesZeroNetwork | supabase/functions/_shared/security.ts:181-194 | an unparsable address lies in every range whose base converts to 0 |
| Addresses.CheckList | supabase/functions/_shared/security.ts:124-145 | the list check denies iff the address equals an entry or lies in an entry containing `/` |
| Addresses.InSomeRangeIff | supabase/functions/_shared/security.ts:132-141 | the entries scanned for a range hold the address exactly when some index of the list carries a `/` entry whose range holds it |
| Addresses.CheckTorExitNode | supabase/functions/_shared/security.ts:119-147 | denies with "TOR exit node detected" iff the address is listed |
| Addresses.CheckVPNProxy | supabase/functions/_shared/security.ts:150-178 | denies with "VPN/Proxy detected" iff the address is listed |
| Addresses.EmptyListAllowsAll | supabase/functions/_shared/security.ts:121-146 | a list that could not be read (the empty list) admits every address |
| ContentFilter.SanitizeInput | supabase/functions/_shared/security.ts:234-243 | the output has no `<` or `>`, no leading white space, at most `cap` characters, is no longer than the input, and holds only characters of the input |
| ContentFilter.SanitizeField | supabase/functions/create-thread/index.ts:82-90 | a non-string sanitises to "" |
| ContentFilter.PlainTextIsOnlyTrimmed | supabase/functions/create-thread/index.ts:84-89 | text with no `<`, `>`, `:` or `=` is only trimmed and cut to the cap |
| ContentFilter.CleanTextIsUnchanged | supabase/functions/admin-boards/index.ts:20-28 | short trimmed plain text is left unchanged |
| ContentFilter.SchemeCanSurviveOnePass | supabase/functions/_shared/security.ts:237-239 | each removal is a single pass, so `javajavascript:script:` sanitises to `javascript:`: the output is not guaranteed free of the scheme |
| ContentFilter.ProfanityVerdict | supabase/functions/_shared/security.ts:246-281 | admitted iff no denylist word occurs in the lower-cased text and no token longer than 3 occurs more than 10 times; a denylist hit is reported as "Prohibited content detected" before any repetition check |
| ContentFilter.ScanDenylist | supabase/functions/_shared/security.ts:254-261 | the loop finds a hit iff some denylist word occurs in the text |
| ContentFilter.Tally | supabase/functions/_shared/security.ts:264-269 | the map loop counts each token exactly as often as it occurs (its multiplicity) |
| ContentFilter.ScanTally | supabase/functions/_shared/security.ts:271-278 | the scan of the tally finds a token longer than 3 counted more than 10 times iff one exists |
| ContentFilter.CheckProfanity | supabase/functions/create-thread/index.ts:92-115 | the loops compute `ProfanityVerdict` |
| ContentFilter.RepetitionThreshold | supabase/functions/_shared/security.ts:272 | one token of length > 3 repeated n times is spam iff n > 10 (11 rejected, 10 and fewer admitted) |
| ContentFilter.ShortTokensNeverSpam | supabase/functions/_shared/security.ts:272 | tokens of at most 3 characters never trigger the repetition rule |
| ContentFilter.CapitalsDoNotEvade | supabase/functions/_shared/security.ts:252-255 | "SPAM" in capitals, anywhere in the text, is still found |
| Captcha.Secret | supabase/functions/_shared/security.ts:285 | the secret is `HCAPTCHA_SECRET` when set, else `RECAPTCHA_SECRET` |
| Captcha.VerifyCaptcha | supabase/functions/_shared/security.ts:284-304 | no request is sent when the secret or the token is missing; the request carries `secret=…&response=…`; verification passes iff a request was sent and the reply is exactly `success: true` |
| Captcha.NoSecretNeverPasses | supabase/functions/admin-auth/index.ts:43-45 | without a secret nothing passes and nothing is sent |
| Captcha.HCaptchaPreferred | supabase/functions/create-thread/index.ts:118-123 | with both secrets set, hCaptcha is asked with its own secret |
| Captcha.OnlyExplicitSuccessPasses | supabase/functions/admin-auth/index.ts:57-61 | an unreachable provider, a malformed body, or a missing or false `success` all fail |
| Admission.CaptchaStage | supabase/functions/_shared/security.ts:353 | the captcha stage passes only with a token and a confirming reply |
| Admission.SecurityCheck | supabase/functions/_shared/security.ts:307-362 | admitted iff the rate, flood, ban, TOR, VPN and (if required) captcha checks all pass; each of `rate_limit`, `ddos`, `banned_ip`, `tor_blocked` and `vpn_blocked` is logged iff its stage is the first to refuse, with that stage's verdict; an unlogged denial is the captcha's; the captcha is asked only when required; the counters left behind hold the rate limiter's new record at `rate_<ip>` and, once the rate limit admits, the flood check's new record at `flood_<ip>`, and nothing else changes; the ban table is untouched when the rate or flood stage refuses and is otherwise the ban lookup's table, an expired entry for the hash deleted |
| Admission.PerformSecurityCheck | supabase/functions/_shared/security.ts:307-362 | run against the stores, the verdict, event, request and new stores follow `SecurityCheck` |
| Admission.ThrottledStopsEarly | supabase/functions/_shared/security.ts:317-321 | a throttled request leaves its flood record, the ban table and the captcha untouched and is logged as `rate_limit` |
| Admission.FloodStopsEarly | supabase/functions/_shared/security.ts:323-328 | a request that passes the rate limit but floods is refused with "Flood protection triggered" for 15 minutes and logged as `ddos`; its flood record, the ban table and the captcha are untouched |
| Admission.BannedBeforeLists | supabase/functions/_shared/security.ts:331-335 | a banned hash is refused with the ban's reason before the lists and the captcha |
| Admission.CaptchaOnlyWhenRequired | supabase/functions/_shared/security.ts:352-358 | the provider is asked only when a captcha is required and a token is present; a missing token is denied |
| Admission.NoSecretRequiredCaptchaDeniesAll | supabase/functions/_shared/security.ts:352-358 | with a captcha required but no secret configured, every request is denied |
| Admission.OnlyOwnCountersChange | supabase/functions/_shared/security.ts:314-328 | a request changes only its own address's `rate_` and `flood_` records |
| Admission.SecurityRunFollowsRateRun | supabase/functions/_shared/security.ts:314-321 | over a run of requests from one address, each seeing the stores the last one left, as many requests get past the rate limit as the bare limiter fed the same instants admits, and no more than that many are admitted |
| Admission.AtMostThirtyPerMinute | supabase/functions/_shared/security.ts:314-321 | of the requests an address makes within one minute of opening its rate window, at most 30 are admitted by the pipeline |
| Admission.FreshAddressAdmittedUnlessBanned | supabase/functions/_shared/security.ts:307-362 | a fresh address on empty lists, without a captcha, is admitted iff its hash has no active ban; an expired ban is gone afterwards |
| CreateThread.SanitizedTitle | supabase/functions/create-thread/index.ts:203 | the title is null when falsy and sanitised otherwise |
| CreateThread.RowOf | supabase/functions/create-thread/index.ts:234-244 | the inserted row holds the sanitised content and title, and a null rather than an empty hash |
| CreateThread.AfterParse | supabase/functions/create-thread/index.ts:192-253 | the stages after parsing take no counters and log nothing but `banned_ip` or `profanity_blocked`; an active ban gives 403 with its reason and `banned_ip`, then empty content 400, then a classifier refusal 400 with its reason and `profanity_blocked`, then a failed captcha guard 400, then an insert error 500; a thread is created iff all pass and the insert succeeds, with row `RowOf`; the ban table left behind is the ban lookup's, so an expired entry for the hash is deleted and the request goes on |
| CreateThread.HandleCreateThread | supabase/functions/create-thread/index.ts:157-260 | a preflight changes nothing; the reply is 429 iff the rate limit or the flood check refuses, with `rate_limit` or `ddos` logged for the first to refuse; after both, a malformed body gives 500 and a parsed one the outcome of `AfterParse`; the counters left behind hold the endpoint's rate record at `rate_<ip>` and, once the rate limit admits, its flood record at `flood_<ip>`, whatever the body holds, and nothing else changes |
| CreateThread.AfterRateLimit | supabase/functions/create-thread/index.ts:175-253 | once the rate limit admits the address, the reply is 429 with `ddos` iff the flood check refuses; otherwise a malformed body gives 500 and a parsed one the outcome of `AfterParse`; the flood check's new record is stored in every case |
| CreateThread.CreateThreadHandler | supabase/functions/create-thread/index.ts:157-260 | run against the stores, the reply, event, request and new stores follow `HandleCreateThread` |
| CreateThread.CreatedIffAllChecksPass | supabase/functions/create-thread/index.ts:163-246 | a thread is created iff the rate, flood, ban, content, classifier and (if configured) captcha checks pass and the insert succeeds; the row holds non-empty sanitised content of at most 10000 characters |
| CreateThread.EmptyContentRefused | supabase/functions/create-thread/index.ts:204-211 | content that sanitises to "" gets 400 "Invalid content", before the classifier and without a captcha request |
| CreateThread.BannedPosterRefused | supabase/functions/create-thread/index.ts:193-200 | an active ban gets 403 with `banned: true` and the ban's reason |
| CreateThread.MalformedBodyStillCounts | supabase/functions/create-thread/index.ts:166-185 | a body that does not parse is still counted in the rate window and answered 429 or 500 |
| AdminAuth.Authenticate | supabase/functions/admin-auth/index.ts:117-152 | without `ADMIN_PASSWORD` the reply is 500; with it, a failed captcha guard is 400 `captcha_failed`, a wrong password 401 `login_failed`, and a login succeeds iff the captcha (when configured) passes and the password equals `ADMIN_PASSWORD`; the counters are not touched |
| AdminAuth.HandleLogin | supabase/functions/admin-auth/index.ts:99-159 | a preflight changes nothing; a post stores the limiter's record and is answered 429 with `rate_limit_exceeded` iff the limiter refuses; after it, a malformed body is 500 and a parsed one the outcome of `Authenticate` |
| AdminAuth.AdminLogin | supabase/functions/admin-auth/index.ts:99-159 | run against the store, the reply, logged action, request and new store follow `HandleLogin` |
| AdminAuth.LoginSucceedsIffPasswordMatches | supabase/functions/admin-auth/index.ts:105-152 | success iff the rate limit admits, a password is configured, the captcha passes when configured, and the passwords are equal |
| AdminAuth.UnconfiguredPasswordAdmitsNobody | supabase/functions/admin-auth/index.ts:118-125 | without `ADMIN_PASSWORD` nobody logs in, and every parsed attempt the limiter admits is answered 500 without a captcha request |
| AdminAuth.CaptchaFailureIs400 | supabase/functions/admin-auth/index.ts:127-137 | with a password and a captcha secret configured, a missing or unconfirmed token is answered 400 and logged `captcha_failed`, whatever password was sent |
| AdminAuth.WrongPasswordIs401 | supabase/functions/admin-auth/index.ts:139-152 | past every guard, a wrong password is answered 401 and logged `login_failed` |
| AdminAuth.ThrottledAttemptLearnsNothing | supabase/functions/admin-auth/index.ts:107-115 | a throttled attempt is answered 429 whatever its body and the configuration |
| AdminAuth.LoginRunFollowsRateRun | supabase/functions/admin-auth/index.ts:22-41 | across a run of attempts, the ones past the rate limit are exactly the ones the limiter admits |
| AdminAuth.AtMostTenGuessesPerMinute | supabase/functions/admin-auth/index.ts:22-41 | within one window, at most 10 attempts from one address reach the password comparison |
| AdminBoards.Slug | supabase/functions/admin-boards/index.ts:88 | the slug holds only `a-z0-9` and is at most 200 characters |
| AdminBoards.SlugNoLonger | supabase/functions/admin-boards/index.ts:88 | lower-casing then filtering never lengthens the text |
| AdminBoards.BoardRowOf | supabase/functions/admin-boards/index.ts:87-92 | the slug is `Slug(board.slug)`, the name is the sanitised name (no `<` or `>`, at most 200 characters), the description is null when falsy and sanitised otherwise, and `nsfw` is carried over |
| AdminBoards.HandleBoards | supabase/functions/admin-boards/index.ts:64-113 | a preflight changes nothing; a body that does not parse gives 500 with the parser's message; with a token, a failed insert gives 500 with its message and no change, and any combination other than `add` with a board or `delete` with an id succeeds with no change; a change happens only with a success reply; failures are 401 or 500 |
| AdminBoards.NoTokenNoChange | supabase/functions/admin-boards/index.ts:73-79 | without a token the reply is 401 and nothing changes |
| AdminBoards.AnyTokenAuthorises | supabase/functions/admin-boards/index.ts:73-101 | the outcome does not depend on which non-empty token is sent; `add` with a board inserts it |
| AdminBoards.ChangeFollowsAction | supabase/functions/admin-boards/index.ts:86-101 | with a token, a board is inserted iff the action is `add` with a board and the insert succeeds, and the sanitised board is what is inserted; an id is deleted iff the action is `delete` with an id; any other combination (`add` without a board, `delete` without an id included) succeeds without a change |
| AdminBoards.CleanSlugIsKept | supabase/functions/admin-boards/index.ts:88 | a slug already made of `a-z0-9`, at most 200 long, is stored unchanged |
| CheckBan.HandleCheckBan | supabase/functions/check-ban/index.ts:9-64 | `banned: true` iff a non-empty hash has an active entry, with its reason and expiry; a missing hash is not banned with no lookup; a preflight changes nothing; a 500 comes exactly from a body that does not parse, with the parser's message and the table untouched; a parsed body is answered banned or not banned; at most the asked hash is deleted |
| CheckBan.CheckBanHandler | supabase/functions/check-ban/index.ts:9-64 | run against the table, the reply and the new table follow `HandleCheckBan` |
| CheckBan.AgreesWithBanLookup | supabase/functions/check-ban/index.ts:35-57 | the endpoint and the pipeline's ban check agree on verdict, reason and resulting table |
| CheckBan.AskingTwiceAgrees | supabase/functions/check-ban/index.ts:36-42 | asking twice at the same instant gives the same answer, and the second question changes nothing |
| ClientSanitize.EscapeEach | src/lib/sanitize.ts:6-10 | per-character escaping leaves no raw `<`, `>`, `"` or `'` |
| ClientSanitize.EscapeHtml | src/lib/sanitize.ts:6-10 | the five replacements leave no raw `<`, `>`, `"` or `'` |
| ClientSanitize.EscapeChainIsPerChar | src/lib/sanitize.ts:6-10 | because `&` is replaced first, the chain of five replacements escapes each character exactly once |
| ClientSanitize.LessThanEscapedOnce | src/lib/sanitize.ts:6-7 | each `<` becomes exactly `&lt;`, never `&amp;lt;` |
| ClientSanitize.SanitizeText | src/lib/sanitize.ts:2-24 | the output has no raw `<`, `>`, `"` or `'`, no NUL and none of \x01-\x08, \x0B, \x0C, \x0E-\x1F, \x7F, and no white space at either end |
| ClientSanitize.DeadTagsNeverMatch | src/lib/sanitize.ts:15-22 | the tag removals never match after escaping |
| ClientSanitize.CleanTextKept | src/lib/sanitize.ts:2-24 | text with nothing to escape or strip comes through unchanged |
| ClientSanitize.SanitizeSql | src/lib/sanitize.ts:27-46 | the output has no `'`, `"`, `;` or `\` and is no longer than the input |
| ClientSanitize.ExecuteLosesExec | src/lib/sanitize.ts:27-46 | because `exec` is removed before `execute`, `sanitizeSQL("execute")` is "ute" |
| ClientSanitize.ValidateInput | src/lib/sanitize.ts:49-59 | the output is at most `maxLength` long, and equals `sanitizeText(input)` whenever that fits |
| ClientSanitize.FormatPostContent | src/lib/sanitize.ts:62-77 | the output has the same number of `\n`-separated lines, each the formatted input line |
| ClientSanitize.FormatLine | src/lib/sanitize.ts:65-75 | a formatted line contains no line break |
| ClientSanitize.NoQuoteNoChange | src/lib/sanitize.ts:72-73 | a line without `&` is left as it is |
| ClientSanitize.QuoteLinks | src/lib/sanitize.ts:72-73 | replacing quotes by anchors adds no line break to a line |
| ClientSanitize.QuoteBecomesAnchor | src/lib/sanitize.ts:72-73 | `&gt;&gt;<digits>` becomes an anchor to `#p<digits>` with `data-quote=<digits>` |
| ClientSanitize.GreentextIsNotLinked | src/lib/sanitize.ts:67-69 | a greentext line is wrapped whole in a span, and its quotes are not linked |
| Cooldown.Restored | src/hooks/useRateLimit.ts:10-21 | a restore happens only from a truthy stored time that parses; it sets `cooldown = 10 - floor((now - stored)/1000)`, which is at least 1 |
| Cooldown.Tick | src/hooks/useRateLimit.ts:23-31 | a tick lowers a positive cooldown by one and runs only while the cooldown is positive |
| Cooldown.PostCooldown.Restore | src/hooks/useRateLimit.ts:10-21 | the mount effect applies `Restored` and keeps the cooldown non-negative |
| Cooldown.PostCooldown.TickOnce | src/hooks/useRateLimit.ts:26-28 | one firing of the interval applies `Tick` and changes nothing else |
| Cooldown.PostCooldown.StartCooldown | src/hooks/useRateLimit.ts:33-38 | the cooldown becomes exactly 10, posting is blocked, and `now` is recorded and stored as text |
| Cooldown.TicksToZero | src/hooks/useRateLimit.ts:26-40 | after n ticks the cooldown is `max(0, cooldown - n)`, so posting resumes after exactly `cooldown` ticks |
| Cooldown.RestoreAfterPosting | src/hooks/useRateLimit.ts:12-35 | a reload d ms after posting restores `10 - floor(d/1000)` seconds while d < 10000, and nothing afterwards |
| Cooldown.FutureStampLengthensCooldown | src/hooks/useRateLimit.ts:15-17 | a stored time in the future gives a cooldown longer than 10 |
| Cooldown.GarbageRestoresNothing | src/hooks/useRateLimit.ts:14-16 | a stored text that does not parse restores nothing |
| NumberText.ParseNumberToString | src/hooks/useRateLimit.ts:14-35 | `parseInt` reads back what `toString` wrote |
| ImageUpload.Validate | src/hooks/useImageUpload.ts:14-31 | too large iff over 5 MiB; wrong type iff within the size limit and not jpeg/png/gif/webp; the size check comes first |
| ImageUpload.SizeLimitIsInclusive | src/hooks/useImageUpload.ts:5-14 | exactly 5 MiB passes, one byte more is refused whatever the type |
| ImageUpload.Extension | src/hooks/useImageUpload.ts:38 | the extension holds no dot |
| ImageUpload.ExtensionIsLastPiece | src/hooks/useImageUpload.ts:38 | the extension is the text after the last dot of the name |
| ImageUpload.DotlessNameIsExtension | src/hooks/useImageUpload.ts:38 | a name without a dot is its own extension |
| ImageUpload.UploadPath | src/hooks/useImageUpload.ts:39-40 | the path starts with `uploads/` |
| ImageUpload.PathEndsWithExtension | src/hooks/useImageUpload.ts:39-40 | the path ends with a dot and the extension |
| ImageUpload.UploadOutcome | src/hooks/useImageUpload.ts:12-71 | a refused file is never uploaded; success iff valid and the upload reports no error, returning the public URL and the original name with progress 100; an upload error gives null with progress 0 |
| ImageUpload.Uploader.UploadImage | src/hooks/useImageUpload.ts:12-71 | the result follows `UploadOutcome`; a refused file leaves `uploading` alone, and an attempted upload ends with `uploading` false |

## Left out

- Concurrency: calls are sequential. The interleaving of concurrent requests on the process-local counter map, and so the atomicity of its read-check-write, is not modelled.
- Logging: `logSecurityEvent` and `logAdminAction` are reduced to the event or action tag a handler returns. Their file and database writes, and the swallowed errors, are not modelled.
- Database access: the `threads` and `boards` inserts become an optional insert error and a returned row or change. The `banned_ips` table becomes a map from hash to entry, deleting by hash rather than by row id. A lookup that matches several rows (an error that the code ignores, reading it as no ban) and a failing lookup are not modelled.
- The clock: `Date.now()` and `new Date()` are integer millisecond parameters. ISO date parsing of `expires_at` is not modelled; expiries are integers.
- Randomness: `crypto.randomUUID()` and the `Math.random().toString(36)` part of upload names are parameters.
- The TOR and VPN lists are parameters. Reading and parsing `torlist.json` and `vpnlist.json` are not modelled; a failed read is the empty list.
- JSON bodies: a member that is missing, null or not a string is `None`. A truthy non-string title or description, which `sanitizeInput` turns into "", is not distinguished from an absent one.
- The captcha provider's HTTP exchange is an input reply: unreachable, malformed, or an answer with an optional `success` flag.
- CORS and content-type headers of responses; replies carry their status and the fields the checks decide.
- `formatTimestamp` in src/lib/sanitize.ts is not part of this model (it is locale-dependent date formatting).
- `toLowerCase` is exact only for characters that lower-case to ASCII. Other characters are kept as they are; only ASCII matters to the denylist and the slug filter.
- A character stands for one UTF-16 code unit; surrogate pairs are not distinguished.
- Toasts, the React state updates' scheduling, the interval's timing and `localStorage` access errors in the hooks are not modelled. `progress` is modelled, `uploading` is a field, and the interval is one `TickOnce` per firing.
- src/lib/hash.ts, the admin-delete and security-logs endpoints, the UI pages and components, and the remaining hooks are not part of this model.
- Addresses.ParseInt, Addresses.ParseDecimal, Addresses.ParseIntNoRadix, Addresses.IpToNumber: numbers are exact integers. JavaScript's `parseInt` returns a double, which rounds values above 2^53 (an octet such as `9007199254740993` reads as `9007199254740992`) and overflows to Infinity past about 309 digits; such octets give a different address number in the model.
- AdminBoards.BoardRowOf: `nsfw` is a boolean. A truthy non-boolean `board.nsfw`, which `board.nsfw || false` stores as it is, is not modelled.
- Addresses.IsIPInRange: `(ip & mask) === (range & mask)` is modelled as equality of the two numbers after dividing by `2^s`, where `s` is the count of cleared bits (`Addresses.SameUnderMask`). `Addresses.MaskNum` proves the mask's value, `2^32 - 2^s`. That keeping the high `32 - s` bits of a 32-bit value is the same as dropping its low `s` bits is taken as the modelling step; no bitwise AND is proved.
- Counters.CountStaysBounded: stated for a positive limit only; with a limit of 0 a fresh window still admits one call and stores count 1.

## Where the code departs from what its names and comments promise

- The rate limiter's window is fixed, not rolling. `Counters.AtMostLimitPerWindow` bounds only the calls that fall inside the window the first call opened. Across a window's end, an address with no history is admitted `2 * limit` times: once at `t`, `limit - 1` times at `t + windowMs` and `limit` times one millisecond later (`Counters.BoundaryAdmitsTwiceTheLimit`). So `2 * limit - 1` admissions can fall within one millisecond, and "at most `limit` per `windowMs`" holds of no rolling span.
- A fresh counter window restarts `strikes` at 0 (supabase/functions/_shared/security.ts:38-42), so strikes do not carry across windows. The model follows the code.
- The create-thread and admin-auth copies of the rate limiter return no block duration on denial (supabase/functions/create-thread/index.ts:32-36). Their replies carry only the reason, which the model reproduces; the stored record is the shared limiter's.
- The address parser does not reject non-IPv4 text. An address that does not start with a digit, such as "unknown", converts to 0.0.0.0 and matches any range whose base is 0.0.0.0 (`Addresses.UnparsableMatchesZeroNetwork`). A `/0` range matches only its base address, because the shift count is taken modulo 32 (`Addresses.WholeWordPrefixIsExact`).
- `performSecurityCheck` with `requireCaptcha` and no secret configured denies every request (`Admission.NoSecretRequiredCaptchaDeniesAll`). The endpoints instead skip the captcha when no secret is configured.
- A ban lookup whose query fails yields no data in the code and so admits the request; it does not fail closed.
- The admin-boards endpoint accepts any non-empty token; it does not check tokens issued by admin-auth (`AdminBoards.AnyTokenAuthorises`).
