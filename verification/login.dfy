/** The `/api/login` handler: compare the submitted pair with the configured
    pair and, on a match, register a fresh 24-hour session. */
module Login {
  import opened JsValues
  import opened SessionStore

  /** `VALID_USERNAME` and `VALID_PASSWORD`, each possibly unset. */
  datatype Credentials = Credentials(validUsername: Option<string>, validPassword: Option<string>)

  datatype LoginReply = LoginSucceeded(sessionToken: string) | LoginRejected {
    function HttpStatus(): int {
      if LoginSucceeded? then 200 else 401
    }
  }

  datatype LoginOutcome = LoginOutcome(reply: LoginReply, registry: Registry)

  /** Both submitted fields strictly equal their configured counterparts.
      With a variable unset, only an omitted field matches it. */
  predicate Accepts(creds: Credentials, username: JsonField, password: JsonField) {
    StrictEquals(username, creds.validUsername) && StrictEquals(password, creds.validPassword)
  }

  /** The issued token: a fixed prefix followed by text derived from the clock
      and a random number, here supplied as `entropy`. Whatever the entropy,
      the token is a truthy header value, so a client can present it. */
  function SessionToken(entropy: string): (token: string)
    ensures Truthy(Some(token))
  {
    "session_" + entropy
  }

  /** Different entropy gives different tokens: the prefix is fixed, so the
      token determines the entropy it was made from. */
  lemma SessionTokenInjective(entropy1: string, entropy2: string)
    ensures SessionToken(entropy1) == SessionToken(entropy2) <==> entropy1 == entropy2
  {
    var t1, t2 := SessionToken(entropy1), SessionToken(entropy2);
    assert t1[8..] == entropy1 && t2[8..] == entropy2;
  }

  /** The login handler at time `now`. It succeeds exactly when both fields
      match; a success inserts one record under the issued token (replacing
      any record already there) and leaves every other entry alone; a
      failure answers 401 and leaves the registry as it was. */
  function HandleLogin(reg: Registry, creds: Credentials, username: JsonField, password: JsonField,
                       entropy: string, now: Millis): (o: LoginOutcome)
    ensures o.reply.LoginSucceeded? <==> Accepts(creds, username, password)
    ensures o.reply.HttpStatus() == 401 <==> !Accepts(creds, username, password)
    ensures o.reply.LoginSucceeded? ==>
              var token := o.reply.sessionToken;
              && token == SessionToken(entropy)
              && token in o.registry
              && o.registry[token] == Session(username, now, now + SESSION_LIFETIME_MS)
              && o.registry.Keys == reg.Keys + {token}
              && AgreeOutside(reg, o.registry, token)
    ensures o.reply.LoginRejected? ==> o.registry == reg
  {
    if Accepts(creds, username, password) then
      var token := SessionToken(entropy);
      LoginOutcome(LoginSucceeded(token), reg[token := Session(username, now, now + SESSION_LIFETIME_MS)])
    else
      LoginOutcome(LoginRejected, reg)
  }

  /** A fresh session is admitted by the gate throughout its lifetime,
      inclusive of the instant `createdAt + 24h`, with the record login made. */
  lemma LoginThenValidate(reg: Registry, creds: Credentials, username: JsonField, password: JsonField,
                          entropy: string, loginAt: Millis, now: Millis)
    requires Accepts(creds, username, password)
    requires now <= loginAt + SESSION_LIFETIME_MS
    ensures var o := HandleLogin(reg, creds, username, password, entropy, loginAt);
            ValidateSession(o.registry, Some(o.reply.sessionToken), now)
              == Validation(Admitted(Session(username, loginAt, loginAt + SESSION_LIFETIME_MS)), o.registry)
  {
  }

  /** One millisecond past its lifetime a fresh session is refused as expired
      and dropped from the registry, and from then on its token is unknown. */
  lemma LoginThenExpire(reg: Registry, creds: Credentials, username: JsonField, password: JsonField,
                        entropy: string, loginAt: Millis, now: Millis, later: Millis)
    requires Accepts(creds, username, password)
    requires now > loginAt + SESSION_LIFETIME_MS
    ensures var o := HandleLogin(reg, creds, username, password, entropy, loginAt);
            var v := ValidateSession(o.registry, Some(o.reply.sessionToken), now);
            && v.verdict == Refused(ExpiredSession)
            && o.reply.sessionToken !in v.registry
            && ValidateSession(v.registry, Some(o.reply.sessionToken), later).verdict == Refused(InvalidSession)
  {
    var o := HandleLogin(reg, creds, username, password, entropy, loginAt);
    ExpiredThenInvalid(o.registry, Some(o.reply.sessionToken), now, later);
  }

  /** Two successful logins whose tokens differ yield two sessions that are
      both admitted while the earlier one is still within its lifetime: the
      second insertion does not disturb the first. */
  lemma TwoLoginsBothValid(reg: Registry, creds: Credentials, username: JsonField, password: JsonField,
                           entropy1: string, at1: Millis, entropy2: string, at2: Millis, now: Millis)
    requires Accepts(creds, username, password)
    requires entropy1 != entropy2
    requires at1 <= at2 && now <= at1 + SESSION_LIFETIME_MS
    ensures var o1 := HandleLogin(reg, creds, username, password, entropy1, at1);
            var o2 := HandleLogin(o1.registry, creds, username, password, entropy2, at2);
            && o1.reply.sessionToken != o2.reply.sessionToken
            && ValidateSession(o2.registry, Some(o1.reply.sessionToken), now).verdict.Admitted?
            && ValidateSession(o2.registry, Some(o2.reply.sessionToken), now).verdict.Admitted?
  {
    var o1 := HandleLogin(reg, creds, username, password, entropy1, at1);
    var o2 := HandleLogin(o1.registry, creds, username, password, entropy2, at2);
    var t1, t2 := o1.reply.sessionToken, o2.reply.sessionToken;
    SessionTokenInjective(entropy1, entropy2);
    assert t1 in o2.registry && o2.registry[t1] == o1.registry[t1];
  }

  /** With both variables unset, a request body that omits both fields logs
      in: strict equality holds between two `undefined` values. */
  lemma UnsetCredentialsAdmitEmptyBody(reg: Registry, entropy: string, now: Millis)
    ensures HandleLogin(reg, Credentials(None, None), Undefined, Undefined, entropy, now).reply.LoginSucceeded?
  {
  }
}
