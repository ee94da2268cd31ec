/** `verifyCaptcha(token)`: the server-side check of a captcha token. The
    secret comes from the environment, the verdict from the provider's
    `siteverify` endpoint; both are parameters here. The shared security
    module, create-thread and admin-auth carry the same function. */
module Captcha {
  import opened Wrappers

  /** The two environment variables the function reads. */
  datatype Env = Env(hcaptchaSecret: Option<string>, recaptchaSecret: Option<string>)

  datatype Provider = HCaptcha | ReCaptcha

  /** The form-encoded POST the function sends. */
  datatype CaptchaRequest = CaptchaRequest(provider: Provider, body: string)

  /** What the provider's endpoint gave back: no response (the fetch threw),
      a body that is not JSON, or a JSON object whose `success` member is
      the boolean given (`None` when it is missing or not a boolean). */
  datatype Reply = Unreachable | Malformed | Answered(success: Option<bool>)

  /** The outcome, and the request sent, if any. */
  datatype Verification = Verification(passed: bool, request: Option<CaptchaRequest>)

  /** `HCAPTCHA_SECRET || RECAPTCHA_SECRET` */
  function Secret(env: Env): (s: Option<string>)
    ensures Truthy(env.hcaptchaSecret) ==> s == env.hcaptchaSecret
    ensures !Truthy(env.hcaptchaSecret) ==> s == env.recaptchaSecret
  {
    if Truthy(env.hcaptchaSecret) then env.hcaptchaSecret else env.recaptchaSecret
  }

  /** The endpoint: hCaptcha whenever its secret is set. */
  function ProviderOf(env: Env): Provider {
    if Truthy(env.hcaptchaSecret) then HCaptcha else ReCaptcha
  }

  /** `data.success === true` */
  predicate Confirms(reply: Reply) {
    reply.Answered? && reply.success == Some(true)
  }

  /** `verifyCaptcha(token)`, where `reply` is what the endpoint would answer. */
  function VerifyCaptcha(env: Env, token: Option<string>, reply: Reply): (v: Verification)
    ensures v.request.None? <==> !Truthy(Secret(env)) || !Truthy(token)
    ensures v.request.Some? ==>
              v.request.value == CaptchaRequest(ProviderOf(env),
                "secret=" + Secret(env).value + "&response=" + token.value)
    ensures v.passed <==> v.request.Some? && Confirms(reply)
  {
    var secret := Secret(env);
    if !Truthy(secret) || !Truthy(token) then Verification(false, None)
    else
      var request := CaptchaRequest(ProviderOf(env), "secret=" + secret.value + "&response=" + token.value);
      Verification(Confirms(reply), Some(request))
  }

  /** Without a secret no token passes, whatever the provider would say,
      and the provider is never asked. */
  lemma NoSecretNeverPasses(env: Env, token: Option<string>, reply: Reply)
    requires !Truthy(env.hcaptchaSecret) && !Truthy(env.recaptchaSecret)
    ensures VerifyCaptcha(env, token, reply) == Verification(false, None)
  {
  }

  /** When both secrets are set, hCaptcha is asked, with its own secret. */
  lemma HCaptchaPreferred(env: Env, token: Option<string>, reply: Reply)
    requires Truthy(env.hcaptchaSecret) && Truthy(token)
    ensures VerifyCaptcha(env, token, reply).request ==
              Some(CaptchaRequest(HCaptcha, "secret=" + env.hcaptchaSecret.value + "&response=" + token.value))
  {
  }

  /** A reply that does not carry `success: true` (an error, a non-JSON
      body, `success` missing, false or not a boolean) never passes. */
  lemma OnlyExplicitSuccessPasses(env: Env, token: Option<string>, reply: Reply)
    requires !Confirms(reply)
    ensures !VerifyCaptcha(env, token, reply).passed
  {
  }
}
