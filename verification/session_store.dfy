/** The in-memory session registry (`sessions`, a Map from token to record)
    and the `validateSession` gate that protected endpoints run first. */
module SessionStore {
  import opened JsValues

  /** Times are milliseconds since the epoch, as `Date.now()` returns them. */
  type Millis = nat

  /** How long a session lives: 24 hours, in milliseconds. */
  const SESSION_LIFETIME_MS: nat := 24 * 60 * 60 * 1000

  /** The stored record. `username` is the body field exactly as submitted. */
  datatype Session = Session(username: JsonField, createdAt: Millis, expiresAt: Millis)

  /** Token to session record; keys are unique by construction of a map. */
  type Registry = map<string, Session>

  /** Why the gate refused; all three are answered with HTTP 401. */
  datatype Refusal = MissingToken | InvalidSession | ExpiredSession

  datatype Verdict = Refused(why: Refusal) | Admitted(session: Session)

  /** The gate's verdict together with the registry it leaves behind. */
  datatype Validation = Validation(verdict: Verdict, registry: Registry)

  /** Expiry is strict: a session is still good at the very millisecond
      `expiresAt`, and expired from the next one on. */
  predicate Expired(s: Session, now: Millis) {
    now > s.expiresAt
  }

  /** `a` and `b` hold the same entries under every key other than `key`. */
  ghost predicate AgreeOutside(a: Registry, b: Registry, key: string) {
    forall t :: t != key ==> (t in a <==> t in b) && (t in a ==> a[t] == b[t])
  }

  /** The session gate. A falsy header (absent or empty) is refused before
      the registry is consulted; an unknown token is refused; a known but
      expired token is deleted and refused; anything else is admitted with
      the stored record. Only the expired case changes the registry, and then
      only by removing the presented token. */
  function ValidateSession(reg: Registry, header: Option<string>, now: Millis): (v: Validation)
    ensures v.verdict == Refused(MissingToken) <==> !Truthy(header)
    ensures v.verdict == Refused(InvalidSession) <==> Truthy(header) && header.value !in reg
    ensures v.verdict == Refused(ExpiredSession)
        <==> Truthy(header) && header.value in reg && Expired(reg[header.value], now)
    ensures v.verdict.Admitted?
        ==> Truthy(header) && header.value in reg && v.verdict.session == reg[header.value]
            && !Expired(v.verdict.session, now)
    ensures v.verdict == Refused(ExpiredSession)
        ==> Truthy(header) && header.value !in v.registry
            && v.registry.Keys == reg.Keys - {header.value}
            && AgreeOutside(reg, v.registry, header.value)
    ensures v.verdict != Refused(ExpiredSession) ==> v.registry == reg
  {
    if !Truthy(header) then
      Validation(Refused(MissingToken), reg)
    else if header.value !in reg then
      Validation(Refused(InvalidSession), reg)
    else if Expired(reg[header.value], now) then
      Validation(Refused(ExpiredSession), reg - {header.value})
    else
      Validation(Admitted(reg[header.value]), reg)
  }

  /** Lazy eviction really evicts: once a token has been refused as expired,
      presenting it again, at any time, finds no session at all. */
  lemma ExpiredThenInvalid(reg: Registry, header: Option<string>, now: Millis, later: Millis)
    requires ValidateSession(reg, header, now).verdict == Refused(ExpiredSession)
    ensures ValidateSession(ValidateSession(reg, header, now).registry, header, later).verdict
         == Refused(InvalidSession)
  {
  }

  /** An admitted session is not consumed: presenting the same token again at
      any later time up to and including its `expiresAt` is admitted with the
      same record and leaves the registry as it was. */
  lemma AdmissionIsRepeatable(reg: Registry, header: Option<string>, now: Millis, later: Millis)
    requires ValidateSession(reg, header, now).verdict.Admitted?
    requires now <= later <= ValidateSession(reg, header, now).verdict.session.expiresAt
    ensures ValidateSession(ValidateSession(reg, header, now).registry, header, later)
         == ValidateSession(reg, header, now)
  {
  }

  /** The gate never adds a session and never alters a record it keeps. */
  lemma ValidationOnlyShrinks(reg: Registry, header: Option<string>, now: Millis)
    ensures ValidateSession(reg, header, now).registry.Keys <= reg.Keys
    ensures forall t :: t in ValidateSession(reg, header, now).registry
                   ==> ValidateSession(reg, header, now).registry[t] == reg[t]
  {
  }
}
