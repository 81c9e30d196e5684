/** The `GET /wpp-webhook` handshake of app/routes/whatsapp_router.py: Meta sends `hub.mode`,
    `hub.verify_token` and `hub.challenge`, and the endpoint echoes the challenge when the mode is
    `subscribe` and the token is the configured verify token. */
module WhatsAppRouter {
  import opened Wrappers

  /** A plain-text answer, or an `HTTPException` with its status and detail. */
  datatype Reply = PlainText(status: int, content: Option<string>) | HttpError(status: int, detail: string)

  /** `verify`; `secret` is `settings.meta_verify_token`. */
  function Verify(mode: Option<string>, token: Option<string>, challenge: Option<string>, secret: string): (r: Reply)
    ensures r.status == 200 <==> r.PlainText?
    ensures r.PlainText? ==> r.content == challenge && token == Some(secret)
  {
    if Falsy(mode) || Falsy(token) then HttpError(400, "Missing parameters")
    else if mode == Some("subscribe") && token == Some(secret) then PlainText(200, challenge)
    else HttpError(403, "Verification failed")
  }

  /** The three answers: 400 exactly when mode or token is missing or empty, whatever else
      holds; otherwise 200 with the challenge as body exactly when the mode is `subscribe` and
      the token is the secret; 403 for every other mode and token. */
  lemma VerifyAnswers(mode: Option<string>, token: Option<string>, challenge: Option<string>, secret: string)
    ensures Verify(mode, token, challenge, secret).status == 400 <==> Falsy(mode) || Falsy(token)
    ensures Verify(mode, token, challenge, secret) == PlainText(200, challenge) <==>
      mode == Some("subscribe") && token == Some(secret) && secret != ""
    ensures Verify(mode, token, challenge, secret).status == 403 <==>
      !Falsy(mode) && !Falsy(token) && !(mode == Some("subscribe") && token == Some(secret))
    ensures Verify(mode, token, challenge, secret).status in {200, 400, 403}
  {
  }

  /** The challenge is never checked: a missing challenge causes neither 400 nor 403, and only
      the body of a 200 depends on it. */
  lemma VerifyIgnoresChallenge(mode: Option<string>, token: Option<string>, c1: Option<string>, c2: Option<string>, secret: string)
    ensures Verify(mode, token, c1, secret).status == Verify(mode, token, c2, secret).status
    ensures Verify(mode, token, c1, secret).HttpError? ==> Verify(mode, token, c1, secret) == Verify(mode, token, c2, secret)
  {
  }
}
