/**
 * The follow-up loop: send, then answer a challenge, retry, or follow a redirect, until a
 * response or an error is final. The network, the cookie jar, the authenticators and URL
 * joining are given as functions; those with state see the number of the attempt.
 */
module FollowUp {
  import opened Wrappers
  import opened FollowUpPolicy

  datatype NetworkResult = Answered(response: Response) | Broke(error: WireError) | NotReady

  datatype AuthAnswer = AuthRequest(request: Request) | AuthDeclined | AuthBroke

  type Authenticator = (nat, Request, Response) -> AuthAnswer

  datatype Environment = Environment(
    network: (nat, Request) -> NetworkResult,
    jar: Option<(nat, Uri) -> Option<string>>,
    parsesAsUrl: Uri -> bool,
    join: (Uri, string) -> Option<Uri>,
    authenticator: Option<Authenticator>,
    proxyAuthenticator: Option<Authenticator>)

  datatype Config = Config(retry: RetryPolicy, redirect: RedirectPolicy, maxAuthAttempts: nat)

  datatype Counters = Counters(attempt: nat, retries: nat, redirects: nat, auths: nat)

  datatype Failure =
    | InvalidRequest | BadUrl | Network(error: WireError) | NetworkNotReady | AuthenticatorError
    | BadRedirect | TooManyRedirects | InsecureRedirect | LightSnapshot | BodyNotCloneable

  datatype Outcome = Final(response: Response) | Failed(failure: Failure)

  datatype Cause = First | Auth | Retry | Redirect

  // ------------------------------------------------------------------------- snapshots

  /** `headers` is absent in a light capture, `body` if it cannot be sent again. */
  datatype Snapshot = Snapshot(verb: Method, uri: Uri, headers: Option<Headers>, body: Option<Body>, noCoalescing: bool)

  predicate Rebuildable(config: Config, env: Environment) {
    config.redirect.follow || config.retry.maxRetries > 0 || env.authenticator.Some? || env.proxyAuthenticator.Some?
  }

  function Capture(request: Request, rebuildable: bool): Snapshot {
    Snapshot(request.verb, request.uri, if rebuildable then Some(request.headers) else None, TryClone(request.body), request.noCoalescing)
  }

  /** Adds the jar's cookies for this URI, unless the request brings its own. */
  function WithCookies(env: Environment, k: nat, request: Request): Result<Request, Failure> {
    if env.jar.None? || "cookie" in request.headers then Success(request)
    else if !env.parsesAsUrl(request.uri) then Failure(BadUrl)
    else
      match env.jar.value(k, request.uri)
      case None => Success(request)
      case Some(value) => Success(request.(headers := request.headers["cookie" := [value]]))
  }

  const SENSITIVE: set<string> :=
    {"authorization", "cookie", "x-api-key", "x-auth-token", "x-csrf-token", "x-access-token", "x-session-token"}

  const CONTENT: set<string> :=
    {"content-length", "content-type", "content-encoding", "transfer-encoding", "expect"}

  function RetryRequest(s: Snapshot): Result<Request, Failure> {
    if s.body.None? then Failure(BodyNotCloneable)
    else if s.headers.None? then Failure(LightSnapshot)
    else Success(Request(s.verb, s.uri, s.headers.value, s.body.value, s.noCoalescing))
  }

  predicate SwitchesToGet(verb: Method, status: nat) {
    status in {301, 302, 303} && !verb.Get? && !verb.Head?
  }

  predicate PreservesBody(status: nat) {
    status in {307, 308}
  }

  /** `None` if the body would have to be sent again and cannot be. */
  function RedirectRequest(s: Snapshot, status: nat, location: Uri): Result<Option<Request>, Failure>
    requires ValidUri(s.uri) && ValidUri(location)
  {
    var toGet := SwitchesToGet(s.verb, status);
    if PreservesBody(status) && s.body.None? then Success(None)
    else if s.headers.None? then Failure(LightSnapshot)
    else
      var body := if PreservesBody(status) then s.body.value else if toGet || s.body.None? then Absent else s.body.value;
      var dropped := {"host"} + (if SameOrigin(s.uri, location) then {} else SENSITIVE) + (if toGet then CONTENT else {});
      Success(Some(Request(if toGet then Get else s.verb, location, s.headers.value - dropped, body, s.noCoalescing)))
  }

  // -------------------------------------------------------------------------- decisions

  datatype Decision = Done(outcome: Outcome) | Again(request: Request, counters: Counters, cause: Cause)

  /** Hands a challenge to the authenticator it is for; `None` if there is nothing to do. */
  function Authenticate(config: Config, env: Environment, k: nat, s: Snapshot, response: Response, c: Counters): Option<Decision> {
    var authenticator :=
      if response.status == 401 then env.authenticator
      else if response.status == 407 && response.selectedProxy then env.proxyAuthenticator
      else None;
    if authenticator.None? || c.auths >= config.maxAuthAttempts || s.body.None? then None
    else if s.headers.None? then Some(Done(Failed(LightSnapshot)))
    else
      match authenticator.value(k, Request(s.verb, s.uri, s.headers.value, s.body.value, s.noCoalescing), response)
      case AuthBroke => Some(Done(Failed(AuthenticatorError)))
      case AuthDeclined => None
      case AuthRequest(request) => Some(Again(request, c.(attempt := c.attempt + 1, auths := c.auths + 1), Auth))
  }

  /** The comparison narrows the configured maximum to 32 bits. */
  predicate RetryMisdirected(config: Config, s: Snapshot, response: Response, c: Counters) {
    response.status == 421 && s.body.Some? && c.retries < config.retry.maxRetries % 0x1_0000_0000 && response.coalescedRetryable
  }

  function RetryOnce(s: Snapshot, c: Counters, noCoalescing: bool): Decision {
    match RetryRequest(s)
    case Failure(f) => Done(Failed(f))
    case Success(request) =>
      Again(if noCoalescing then request.(noCoalescing := true) else request,
            c.(attempt := c.attempt + 1, retries := c.retries + 1), Retry)
  }

  function FollowRedirect(config: Config, env: Environment, s: Snapshot, response: Response, c: Counters): Decision
    requires ValidUri(s.uri)
  {
    if !config.redirect.follow || !IsRedirectStatus(response.status) || response.location.None? then Done(Final(response))
    else
      match env.join(s.uri, response.location.value)
      case None => Done(Failed(BadRedirect))
      case Some(location) =>
        if !ValidUri(location) then Done(Failed(InvalidRequest))
        else
          match ShouldRedirect(config.redirect, s.uri, response.status, location, c.redirects)
          case Stop => Done(Final(response))
          case TooMany => Done(Failed(TooManyRedirects))
          case Insecure => Done(Failed(InsecureRedirect))
          case Follow =>
            match RedirectRequest(s, response.status, location)
            case Failure(f) => Done(Failed(f))
            case Success(None) => Done(Final(response))
            case Success(Some(request)) =>
              Again(request, c.(attempt := c.attempt + 1, redirects := c.redirects + 1), Redirect)
  }

  function DecideResponse(config: Config, env: Environment, k: nat, s: Snapshot, response: Response, c: Counters): Decision
    requires ValidUri(s.uri)
  {
    if env.jar.Some? && response.setsCookies && !env.parsesAsUrl(s.uri) then Done(Failed(BadUrl))
    else
      match Authenticate(config, env, k, s, response, c)
      case Some(d) => d
      case None =>
        if RetryMisdirected(config, s, response, c) then RetryOnce(s, c, true)
        else if ShouldRetryResponse(config.retry, response.status, c.retries, s.body.Some?, s.verb, response.retryAfter)
        then RetryOnce(s, c, false)
        else FollowRedirect(config, env, s, response, c)
  }

  function Decide(config: Config, env: Environment, k: nat, s: Snapshot, result: NetworkResult, c: Counters): Decision
    requires ValidUri(s.uri)
  {
    match result
    case NotReady => Done(Failed(NetworkNotReady))
    case Answered(response) => DecideResponse(config, env, k, s, response, c)
    case Broke(error) =>
      if ShouldRetry(config.retry, error, c.retries, s.body.Some?, s.verb) then RetryOnce(s, c, false)
      else Done(Failed(Network(error)))
  }

  // --------------------------------------------------------------------------- the runs

  /** One network call: the request before and after cookies, and the counters it was made with. */
  datatype Hop = Hop(request: Request, sent: Request, counters: Counters, cause: Cause)

  /** What the loop decides after hop `k`. */
  function After(config: Config, env: Environment, k: nat, hop: Hop): Decision
    requires ValidUri(hop.request.uri)
  {
    Decide(config, env, k, Capture(hop.request, Rebuildable(config, env)), env.network(k, hop.sent), hop.counters)
  }

  ghost predicate IsSent(env: Environment, k: nat, hop: Hop) {
    ValidUri(hop.request.uri) && WithCookies(env, k, hop.request) == Success(hop.sent)
  }

  /** Every hop is sent with its cookies, and is what the loop decided after the one before it. */
  ghost predicate IsRun(config: Config, env: Environment, hops: seq<Hop>) {
    && (forall k :: 0 <= k < |hops| ==> IsSent(env, k, hops[k]))
    && (forall k :: 0 < k < |hops| ==>
          After(config, env, k - 1, hops[k - 1]) == Again(hops[k].request, hops[k].counters, hops[k].cause))
  }

  function Left(max: nat, used: nat): nat {
    if used < max then max - used else 0
  }

  /** Follow-ups the budgets still allow. */
  function Remaining(config: Config, c: Counters): nat {
    Left(config.retry.maxRetries, c.retries) + Left(config.redirect.maxRedirects, c.redirects) + Left(config.maxAuthAttempts, c.auths)
  }

  /** Each follow-up spends one unit of one budget that was not used up. */
  lemma FollowUpSpendsBudget(config: Config, env: Environment, k: nat, hop: Hop)
    requires ValidUri(hop.request.uri) && After(config, env, k, hop).Again?
    ensures var c' := After(config, env, k, hop).counters;
            && Remaining(config, c') == Remaining(config, hop.counters) - 1
            && c'.attempt == hop.counters.attempt + 1
            && c'.retries >= hop.counters.retries && c'.redirects >= hop.counters.redirects && c'.auths >= hop.counters.auths
            && c'.retries + c'.redirects + c'.auths == hop.counters.retries + hop.counters.redirects + hop.counters.auths + 1
  {
    hide RetryByPhase, RetryByStage, RetryByKind, ValidUri, TryClone;
  }

  lemma CookieFailureIsBadUrl(env: Environment, k: nat, request: Request)
    ensures WithCookies(env, k, request).Failure? <==> env.jar.Some? && "cookie" !in request.headers && !env.parsesAsUrl(request.uri)
    ensures WithCookies(env, k, request).Failure? ==> WithCookies(env, k, request) == Failure(BadUrl)
  {
  }

  lemma AfterIs(config: Config, env: Environment, k: nat, hop: Hop)
    requires ValidUri(hop.request.uri)
    ensures After(config, env, k, hop) ==
            Decide(config, env, k, Capture(hop.request, Rebuildable(config, env)), env.network(k, hop.sent), hop.counters)
  {
  }

  /** The loop: it makes at most one call more than the budgets left at the start allow. */
  method Call(config: Config, env: Environment, initial: Request, start: Counters) returns (outcome: Outcome, hops: seq<Hop>)
    ensures IsRun(config, env, hops) && |hops| <= 1 + Remaining(config, start)
    ensures hops != [] ==> hops[0].request == initial && hops[0].counters == start && hops[0].cause == First
    ensures hops == [] ==>
              if !ValidUri(initial.uri) then outcome == Failed(InvalidRequest)
              else WithCookies(env, 0, initial).Failure? && outcome == Failed(BadUrl)
    ensures hops != [] ==>
              match After(config, env, |hops| - 1, hops[|hops| - 1])
              case Done(o) => outcome == o
              case Again(request, _, _) =>
                (!ValidUri(request.uri) && outcome == Failed(InvalidRequest)) || (WithCookies(env, |hops|, request).Failure? && outcome == Failed(BadUrl))
  {
    hide After, Remaining, ValidUri, WithCookies;
    var request, counters, cause := initial, start, First;
    hops := [];
    while true
      invariant IsRun(config, env, hops) && |hops| + Remaining(config, counters) <= Remaining(config, start)
      invariant hops == [] ==> request == initial && counters == start && cause == First
      invariant hops != [] ==> hops[0].request == initial && hops[0].counters == start && hops[0].cause == First
      invariant hops != [] ==> After(config, env, |hops| - 1, hops[|hops| - 1]) == Again(request, counters, cause)
      decreases Remaining(config, counters)
    {
      if !ValidUri(request.uri) {
        return Failed(InvalidRequest), hops;
      }
      var snapshot := Capture(request, Rebuildable(config, env));
      var sent := WithCookies(env, |hops|, request);
      if sent.Failure? {
        CookieFailureIsBadUrl(env, |hops|, request);
        return Failed(sent.error), hops;
      }
      var hop := Hop(request, sent.value, counters, cause);
      var decision := Decide(config, env, |hops|, snapshot, env.network(|hops|, sent.value), counters);
      assert decision == After(config, env, |hops|, hop) by { AfterIs(config, env, |hops|, hop); }
      hops := hops + [hop];
      match decision {
        case Done(o) => return o, hops;
        case Again(next, counters', cause') => {
          FollowUpSpendsBudget(config, env, |hops| - 1, hop);
          request, counters, cause := next, counters', cause';
        }
      }
    }
  }
}
