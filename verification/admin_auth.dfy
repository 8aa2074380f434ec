/**
  The shared-secret check both POST handlers run before anything else.
  The caller's credential is the `x-admin-secret` header when that header is
  present (even if empty), otherwise the `Authorization` header with a
  leading "Bearer" and whitespace removed, otherwise "". The request is
  allowed when the trimmed server secret is non-empty and equals the
  trimmed credential.
 */
module AdminAuth {
  import opened Js
  import opened Text

  /**
    The credential string the caller presented, before trimming: the
    `x-admin-secret` header whenever it is present, even empty; otherwise the
    Authorization header with its Bearer prefix removed; otherwise "".
   */
  function PresentedCredential(xAdminSecret: Option<string>, authorization: Option<string>): (r: string)
    ensures xAdminSecret.Some? ==> r == xAdminSecret.value
    ensures xAdminSecret.None? && authorization.None? ==> r == ""
    ensures xAdminSecret.None? && authorization.Some? && !HasBearerPrefix(authorization.value) ==> r == authorization.value
    ensures xAdminSecret.None? && authorization.Some? ==> r == StripBearerPrefix(authorization.value)
  {
    match xAdminSecret
    case Some(v) => v
    case None =>
      match authorization
      case Some(a) => StripBearerPrefix(a)
      case None => ""
  }

  /**
    The check itself: the server secret is set and not blank, and the
    presented credential equals it once both are trimmed.
   */
  predicate Authorized(serverSecret: Option<string>, xAdminSecret: Option<string>, authorization: Option<string>)
    ensures Authorized(serverSecret, xAdminSecret, authorization) <==>
              && serverSecret.Some? && !Blank(serverSecret.value)
              && Trim(PresentedCredential(xAdminSecret, authorization)) == Trim(serverSecret.value)
  {
    var secret := Trim(serverSecret.GetOr(""));
    secret != "" && Trim(PresentedCredential(xAdminSecret, authorization)) == secret
  }

  /** An unset or blank server secret locks every caller out */
  lemma BlankSecretDenies(serverSecret: Option<string>, xAdminSecret: Option<string>, authorization: Option<string>)
    requires serverSecret.None? || Blank(serverSecret.value)
    ensures !Authorized(serverSecret, xAdminSecret, authorization)
  {
  }

  /** Whatever is accepted carries a credential that is not blank */
  lemma AcceptedCredentialNotBlank(serverSecret: Option<string>, xAdminSecret: Option<string>, authorization: Option<string>)
    requires Authorized(serverSecret, xAdminSecret, authorization)
    ensures !Blank(PresentedCredential(xAdminSecret, authorization))
  {
  }

  /**
    When `x-admin-secret` is present it alone decides: the Authorization
    header is ignored, so an empty `x-admin-secret` is refused even next to
    a correct bearer token.
   */
  lemma AdminHeaderWins(serverSecret: Option<string>, xAdminSecret: string, authorization: Option<string>)
    ensures Authorized(serverSecret, Some(xAdminSecret), authorization)
        <==> Authorized(serverSecret, Some(xAdminSecret), None)
    ensures Authorized(serverSecret, Some(xAdminSecret), authorization)
        <==> (Trim(xAdminSecret) != "" && Trim(xAdminSecret) == Trim(serverSecret.GetOr("")))
  {
  }

  /** Whitespace around either secret never changes the decision, in either direction */
  lemma PaddingIgnored(secret: string, credential: string, w1: string, w2: string, w3: string, w4: string,
                       authorization: Option<string>)
    requires Blank(w1) && Blank(w2) && Blank(w3) && Blank(w4)
    ensures Authorized(Some(w1 + secret + w2), Some(w3 + credential + w4), authorization)
        <==> Authorized(Some(secret), Some(credential), authorization)
  {
    PaddedTrim(w1, secret, w2);
    PaddedTrim(w3, credential, w4);
  }

  /** Padding a string with whitespace leaves its trim alone */
  lemma PaddedTrim(w1: string, s: string, w2: string)
    requires Blank(w1) && Blank(w2)
    ensures Trim(w1 + s + w2) == Trim(s)
  {
    var u1, u2 := TrimIsMiddle(s);
    BlankConcat(w1, u1);
    BlankConcat(u2, w2);
    assert w1 + s + w2 == (w1 + u1) + Trim(s) + (u2 + w2);
    TrimOfPadded(w1 + u1, Trim(s), u2 + w2);
  }

  /**
    A client that sends `Authorization: Bearer <secret>` (any letter case of
    "Bearer", any non-empty whitespace before the secret) and no
    `x-admin-secret` is accepted.
   */
  lemma BearerTokenAccepted(serverSecret: string, word: string, sep: string)
    requires Trim(serverSecret) != ""
    requires |word| == |BearerWord| && StartsWithBearerWord(word)
    requires sep != [] && Blank(sep)
    ensures Authorized(Some(serverSecret), None, Some(word + sep + Trim(serverSecret)))
  {
    StripBearerOfToken(word, sep, Trim(serverSecret));
    TrimIdempotent(serverSecret);
  }

  /**
    An Authorization value without the "Bearer" prefix is compared as it
    stands: it is accepted exactly when its trim is the non-blank trimmed
    server secret.
   */
  lemma BareAuthorizationComparedAsIs(serverSecret: Option<string>, authorization: string)
    requires !HasBearerPrefix(authorization)
    ensures Authorized(serverSecret, None, Some(authorization))
        <==> Trim(serverSecret.GetOr("")) != "" && Trim(authorization) == Trim(serverSecret.GetOr(""))
  {
  }
}
