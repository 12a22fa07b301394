# Session lifecycle of the realtime-credential proxy

The server is a small Express proxy. It authenticates one configured
username/password pair and keeps an in-memory map from session token to
session record. Once a caller presents a valid session, it asks an upstream
realtime API for a short-lived credential and relays it. This project models
the part with logic in it, as pure transitions over an immutable
`map<string, Session>`:

- `JsValues` covers the JavaScript semantics the handlers rely on:
  - `undefined` is modelled as `Option.None`;
  - a property read from parsed JSON (a request-body field, or a field of the upstream response) is a `JsonField`: undefined, a string, or any other JSON value;
  - truthiness (`!x`) is `Truthy`;
  - strict equality (`===`) is `StrictEquals`.
- `SessionStore` holds the registry, the 24-hour lifetime constant and the
  `validateSession` gate (`ValidateSession`).
- `Login` models the `/api/login` handler (`HandleLogin`).
- `TokenExchange` models the decision structure of `/api/get-token`
  (`HandleGetToken`). The check order is: session gate, then upstream
  configuration, then the upstream outcome.
- `Server` runs a sequence of requests against the shared registry. Every
  access to `sessions` happens in synchronous code that runs before any
  `await`: the login body, and `validateSession` (server.js:55-75). After its
  first `await` (server.js:93), the get-token handler reads only the upstream
  result and the environment. So the effect on the registry is the same as
  running each request's synchronous part, in the order those parts run.
  `Serve` orders requests that way. Replies are matched to their requests,
  but they are not in the order they are sent, because a get-token reply
  goes out only after the upstream answers. `ServePreservesWellFormed`
  proves that the registry invariant holds across any run. Starting from the
  empty map the process begins with, every stored token was issued by a
  successful login, and a token that no earlier login issued is answered as
  an invalid session.

Everything that is time, randomness or network becomes a parameter:
- the clock reading `now` (milliseconds, one reading per request);
- the random part of the token (`entropy`);
- the result of the outbound request (`UpstreamResult`).

Two behaviours of the code are easy to miss:
- Expiry is strict. The check at server.js:68 is `now > expiresAt`, so a
  session is still admitted at the exact millisecond `expiresAt`.
- At server.js:30, when both `VALID_USERNAME` and `VALID_PASSWORD` are unset,
  a body that leaves out both fields logs in, because `undefined === undefined`.

## Model

| member | source | states |
|---|---|---|
| JsValues.MatchingField | server.js:30 | for every configured value there is a field strictly equal to it: an omitted field for an unset variable, the same string for a set one, never a non-string JSON value |
| JsValues.StrictEqualsExactlyMatchingField | server.js:30 | a field is strictly equal to a configured value if and only if it is that value's matching field, so exactly one field matches |
| SessionStore.ValidateSession | server.js:55-75 | a falsy header gives MissingToken. An unknown token gives InvalidSession. A stored token past its expiry gives ExpiredSession, and that token is removed with every other entry untouched. Otherwise the exact stored record is admitted and the registry is unchanged. Each refusal holds exactly under its condition |
| SessionStore.ExpiredThenInvalid | server.js:68-71 | after an expired refusal, the same token is refused as InvalidSession at any later time |
| SessionStore.AdmissionIsRepeatable | server.js:73-74 | an admitted session is not consumed: presenting it again at any later time up to and including its `expiresAt` gives the same admission and leaves the registry as it was |
| SessionStore.ValidationOnlyShrinks | server.js:62-71 | the gate never adds a key and never changes a record that it keeps |
| Login.SessionToken | server.js:32 | every issued token is a non-empty string, so a client can present it as a header |
| Login.SessionTokenInjective | server.js:32 | two tokens are equal exactly when their random parts are equal, because the prefix is fixed |
| Login.HandleLogin | server.js:22-52 | login succeeds exactly when both fields strictly equal the configured pair, and fails with 401 otherwise. On success, exactly one entry is stored under the issued token as `(username, now, now + 86400000)`. An older entry under that token is overwritten. Every other entry is unchanged. On failure the registry is unchanged |
| Login.LoginThenValidate | server.js:35-39 | a fresh session is admitted with its stored record at every time up to and including `createdAt + 24h` |
| Login.LoginThenExpire | server.js:35-71 | past `createdAt + 24h` a fresh session is refused as expired and removed. After that its token is unknown |
| Login.TwoLoginsBothValid | server.js:32-39 | two successful logins with different random parts issue different tokens, and both sessions are admitted |
| Login.UnsetCredentialsAdmitEmptyBody | server.js:23-30 | with both variables unset, a body without username and password logs in |
| TokenExchange.HandleGetToken | server.js:78-130 | a gate refusal gives 401 with the gate's reason. A missing URL or key (after a passed gate) gives 500. A non-2xx upstream status is relayed with the upstream text as details. A thrown exception gives 500 with its message, and so does a 2xx body that is not JSON. A `null` body gives 500. A 2xx body that parses to a non-null value gives 200 carrying its `id`, its `client_secret?.value` and the configured WebRTC URL, and 200 occurs only then. The registry changes only through the gate, so a passed session is never consumed |
| TokenExchange.RefusalPrecedesEverything | server.js:78-90 | when the gate refuses, the answer does not depend on the configuration or on the upstream result. So neither is consulted, and the answer is 401 |
| TokenExchange.MissingHeaderIsRefused | server.js:56-60 | an absent or empty header gives MissingToken, and the registry is untouched |
| TokenExchange.ConfigurationPrecedesUpstream | server.js:86-93 | with a passed gate and a missing coordinate, the answer is 500 whatever the upstream result would have been. So no call is made |
| TokenExchange.UpstreamFailureKeepsSession | server.js:105-112 | a non-2xx upstream status is relayed unchanged with the upstream text, and the caller's session is still admitted afterwards |
| TokenExchange.UnusableSuccessBodyIsServerError | server.js:114-128 | a 2xx response whose body is not JSON, or is `null`, is answered with 500, and a syntax error's message is relayed |
| Server.Serve | server.js:19-78 | a run of requests, ordered by when their synchronous parts run, gets one reply per request, matched by position, and each reply is of the kind its request asks for |
| Server.HandlePreservesWellFormed | server.js:30-39 | one request keeps every stored session at a 24-hour lifetime, owned by the configured user, under a presentable token |
| Server.ServePreservesWellFormed | server.js:19-71 | that invariant holds after any run of logins and token requests |
| Server.ServeOnlyAddsIssuedTokens | server.js:19-71 | every token in the registry after a run was there before, or was issued by one of the run's successful logins |
| Server.FreshServerHoldsOnlyIssuedSessions | server.js:19-71 | starting from the empty map, every token after any run was issued by one of its successful logins, and every stored session is well formed |
| Server.ReplyAt | server.js:19-78 | the reply to the i-th request is what its handler answers against the registry left by the requests before it |
| Server.NeverIssuedIsInvalid | server.js:19-66 | from the empty map, a get-token request whose truthy token no earlier successful login issued is answered 401 InvalidSession |

## Left out

- Express wiring, CORS, JSON body parsing, static file serving and `app.listen` (server.js:1-16, 137-139): framework plumbing with no logic of its own.
- The `/health` endpoint (server.js:133-135): it always answers `{status: "ok"}` and touches no state.
- Environment loading and console logging (server.js:5-6, 107, 124): configuration is a parameter and logging has no effect on behaviour.
- Token generation (server.js:32): the clock and `Math.random()` part is the `entropy` parameter. Only the fixed `session_` prefix is modelled, and uniqueness is not claimed.
- Login.HandleLogin: uses one clock reading for `createdAt` and `expiresAt`. The handler calls `Date.now()` twice (server.js:37-38), so in the program `expiresAt - createdAt` can exceed 24 hours by the milliseconds that pass between the two calls.
- The outbound `fetch`, reading its body and `JSON.parse` (server.js:93-103, 106, 114): these are network and foreign calls. Their result is the `UpstreamResult` input:
  - `Threw` is an exception from `fetch` or from reading the body;
  - `Failed` is a non-2xx response with its body text;
  - `Succeeded` is a 2xx response with what `response.json()` makes of its body: a syntax error, `null`, or a value with its `id` and `client_secret?.value` already read.
- TokenExchange.HandleGetToken: for a `null` body it answers 500 as the source does, but it does not say which message goes with it. The message is the engine's own `TypeError` text for reading `id` of `null` (server.js:118, 127).
- The request body sent upstream (deployment name and voice, server.js:82-83, 99-102) is not modelled: it affects only what the network call carries.
- The fixed Japanese message texts of the replies are not modelled. Each reply is a datatype constructor with its HTTP status and the data it relays.
- Interleaving: the get-token handler pauses at `await fetch`, `await response.text()` and `await response.json()` (server.js:93, 106, 114), and other handlers run meanwhile. The model does not represent these pauses, because nothing after them touches `sessions`. Each request is a single step at the point where its synchronous part runs, and the upstream result is an input to that step.
