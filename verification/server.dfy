/** The server as a whole: each request is one transition of the shared
    session registry. Handlers may interleave at `await`, but every access to
    the registry happens in synchronous code before a handler's first
    `await`. So a run is the sequence of requests in the order their
    synchronous parts execute. */
module Server {
  import opened JsValues
  import opened SessionStore
  import opened Login
  import opened TokenExchange

  /** The configuration read from the environment. */
  datatype Config = Config(credentials: Credentials, upstream: UpstreamConfig)

  datatype Request =
    | LoginRequest(username: JsonField, password: JsonField, entropy: string)
    | TokenRequest(header: Option<string>, upstream: UpstreamResult)

  /** A request together with the clock reading at which its synchronous
      part runs. */
  datatype Arrival = Arrival(now: Millis, request: Request)

  datatype Reply = LoginAnswer(login: LoginReply) | TokenAnswer(token: TokenReply)

  /** One request's reply together with the registry it leaves behind. */
  datatype Step = Step(reply: Reply, registry: Registry)

  datatype Outcome = Outcome(replies: seq<Reply>, registry: Registry)

  /** Every stored session lives exactly 24 hours, belongs to the configured
      user, and sits under a token a client can present. */
  ghost predicate WellFormed(reg: Registry, creds: Credentials) {
    forall t :: t in reg ==>
      && Truthy(Some(t))
      && reg[t].expiresAt == reg[t].createdAt + SESSION_LIFETIME_MS
      && StrictEquals(reg[t].username, creds.validUsername)
  }

  /** Route a request to the login handler or to the get-token handler. */
  function Handle(reg: Registry, cfg: Config, a: Arrival): Step {
    match a.request
    case LoginRequest(username, password, entropy) =>
      var o := HandleLogin(reg, cfg.credentials, username, password, entropy, a.now);
      Step(LoginAnswer(o.reply), o.registry)
    case TokenRequest(header, upstream) =>
      var e := HandleGetToken(reg, cfg.upstream, header, a.now, upstream);
      Step(TokenAnswer(e.reply), e.registry)
  }

  /** Serve a sequence of arrivals in the order their synchronous parts run:
      one reply per arrival, of the kind its request asks for. `replies[i]`
      answers `arrivals[i]`; the replies are not in the order they are sent. */
  function Serve(reg: Registry, cfg: Config, arrivals: seq<Arrival>): (o: Outcome)
    ensures |o.replies| == |arrivals|
    ensures forall i :: 0 <= i < |arrivals| ==>
              (o.replies[i].LoginAnswer? <==> arrivals[i].request.LoginRequest?)
    decreases |arrivals|
  {
    if arrivals == [] then
      Outcome([], reg)
    else
      var step := Handle(reg, cfg, arrivals[0]);
      var rest := Serve(step.registry, cfg, arrivals[1..]);
      Outcome([step.reply] + rest.replies, rest.registry)
  }

  /** The tokens that the logins among `arrivals` issue. Whether a login
      succeeds depends only on its own fields and the configuration, never
      on the registry, so this is a property of the arrivals alone. */
  function IssuedTokens(creds: Credentials, arrivals: seq<Arrival>): set<string>
    decreases |arrivals|
  {
    if arrivals == [] then {}
    else
      var here :=
        match arrivals[0].request
        case LoginRequest(username, password, entropy) =>
          if Accepts(creds, username, password) then {SessionToken(entropy)} else {}
        case TokenRequest(_, _) => {};
      here + IssuedTokens(creds, arrivals[1..])
  }

  /** One request keeps the registry well formed. */
  lemma HandlePreservesWellFormed(reg: Registry, cfg: Config, a: Arrival)
    requires WellFormed(reg, cfg.credentials)
    ensures WellFormed(Handle(reg, cfg, a).registry, cfg.credentials)
  {
    match a.request
    case LoginRequest(username, password, entropy) =>
      var o := HandleLogin(reg, cfg.credentials, username, password, entropy, a.now);
      if o.reply.LoginSucceeded? {
        assert AgreeOutside(reg, o.registry, o.reply.sessionToken);
      }
    case TokenRequest(header, upstream) =>
      var e := HandleGetToken(reg, cfg.upstream, header, a.now, upstream);
      ValidationOnlyShrinks(reg, header, a.now);
  }

  /** Any run of requests keeps the registry well formed. */
  lemma {:induction false} ServePreservesWellFormed(reg: Registry, cfg: Config, arrivals: seq<Arrival>)
    requires WellFormed(reg, cfg.credentials)
    ensures WellFormed(Serve(reg, cfg, arrivals).registry, cfg.credentials)
    decreases |arrivals|
  {
    if arrivals != [] {
      HandlePreservesWellFormed(reg, cfg, arrivals[0]);
      ServePreservesWellFormed(Handle(reg, cfg, arrivals[0]).registry, cfg, arrivals[1..]);
    }
  }

  /** Every session in the registry after a run was either there before or
      was issued by one of the run's successful logins. */
  lemma {:induction false} ServeOnlyAddsIssuedTokens(reg: Registry, cfg: Config, arrivals: seq<Arrival>)
    ensures Serve(reg, cfg, arrivals).registry.Keys <= reg.Keys + IssuedTokens(cfg.credentials, arrivals)
    decreases |arrivals|
  {
    if arrivals != [] {
      var next := Handle(reg, cfg, arrivals[0]).registry;
      if arrivals[0].request.TokenRequest? {
        ValidationOnlyShrinks(reg, arrivals[0].request.header, arrivals[0].now);
      }
      ServeOnlyAddsIssuedTokens(next, cfg, arrivals[1..]);
    }
  }

  /** The process starts with an empty `sessions` map. From there, every
      stored session is well formed and every stored token was issued by a
      successful login among the requests served so far. */
  lemma FreshServerHoldsOnlyIssuedSessions(cfg: Config, arrivals: seq<Arrival>)
    ensures Serve(map[], cfg, arrivals).registry.Keys <= IssuedTokens(cfg.credentials, arrivals)
    ensures WellFormed(Serve(map[], cfg, arrivals).registry, cfg.credentials)
  {
    ServeOnlyAddsIssuedTokens(map[], cfg, arrivals);
    ServePreservesWellFormed(map[], cfg, arrivals);
  }

  /** The reply to the `i`-th request is what its handler answers when run
      against the registry left by the requests before it. */
  lemma {:induction false} ReplyAt(reg: Registry, cfg: Config, arrivals: seq<Arrival>, i: nat)
    requires i < |arrivals|
    ensures Serve(reg, cfg, arrivals).replies[i]
         == Handle(Serve(reg, cfg, arrivals[..i]).registry, cfg, arrivals[i]).reply
    decreases i
  {
    if i > 0 {
      var next := Handle(reg, cfg, arrivals[0]).registry;
      ReplyAt(next, cfg, arrivals[1..], i - 1);
      assert arrivals[1..][..i - 1] == arrivals[..i][1..];
    }
  }

  /** A token no earlier login issued is refused as an invalid session,
      whatever else happened before: the process starts with an empty map
      and only successful logins add to it. */
  lemma NeverIssuedIsInvalid(cfg: Config, arrivals: seq<Arrival>, i: nat)
    requires i < |arrivals|
    requires arrivals[i].request.TokenRequest?
    requires Truthy(arrivals[i].request.header)
    requires arrivals[i].request.header.value !in IssuedTokens(cfg.credentials, arrivals[..i])
    ensures Serve(map[], cfg, arrivals).replies[i] == TokenAnswer(SessionRejected(InvalidSession))
  {
    ReplyAt(map[], cfg, arrivals, i);
    FreshServerHoldsOnlyIssuedSessions(cfg, arrivals[..i]);
  }
}
