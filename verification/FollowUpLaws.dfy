/**
 * Which answer or error leads to which follow-up, and what the follow-up looks like, told by
 * statuses, fields and counters.
 */
module FollowUpLaws {
  import opened Wrappers
  import opened HttpTokens
  import opened FollowUpPolicy
  import opened FollowUp
  import opened FollowUpRuns

  // ----------------------------------------------------------------------------- origins

  predicate SameIgnoringCase(s: string, t: string) {
    |s| == |t| && forall i :: 0 <= i < |s| ==>
      || s[i] == t[i]
      || ('A' <= s[i] <= 'Z' && s[i] as int + 32 == t[i] as int)
      || ('A' <= t[i] <= 'Z' && t[i] as int + 32 == s[i] as int)
  }

  lemma LowerIsSameIgnoringCase(s: string, t: string)
    ensures Lower(s) == Lower(t) <==> SameIgnoringCase(s, t)
  {
    if Lower(s) == Lower(t) {
      forall i | 0 <= i < |s|
        ensures s[i] == t[i] || ('A' <= s[i] <= 'Z' && s[i] as int + 32 == t[i] as int)
                || ('A' <= t[i] <= 'Z' && t[i] as int + 32 == s[i] as int)
      {
        assert Lower(s)[i] == LowerChar(s[i]) && Lower(t)[i] == LowerChar(t[i]);
      }
    }
  }

  /** Two URIs have one origin exactly if scheme, host in any letter case, and port agree; a missing port is the scheme's. */
  lemma SameOriginIs(u: Uri, v: Uri)
    requires ValidUri(u) && ValidUri(v)
    ensures SameOrigin(u, v) <==>
            && u.scheme == v.scheme && SameIgnoringCase(u.host.value, v.host.value)
            && (u.port == v.port
                || (u.port == None && v.port == Some(if u.scheme == Some("http") then 80 else 443))
                || (v.port == None && u.port == Some(if u.scheme == Some("http") then 80 else 443)))
  {
    LowerIsSameIgnoringCase(u.host.value, v.host.value);
    hide SameIgnoringCase, Lower;
  }

  predicate IsHttpUri(u: Uri) {
    (u.scheme == Some("http") || u.scheme == Some("https")) && !u.userinfo && u.host.Some?
  }

  predicate IsCredential(name: string) {
    || name == "authorization" || name == "cookie" || name == "x-api-key" || name == "x-auth-token"
    || name == "x-csrf-token" || name == "x-access-token" || name == "x-session-token"
  }

  predicate DescribesContent(name: string) {
    || name == "content-length" || name == "content-type" || name == "content-encoding"
    || name == "transfer-encoding" || name == "expect"
  }

  lemma ListedNames(name: string)
    ensures name in SENSITIVE <==> IsCredential(name)
    ensures name in CONTENT <==> DescribesContent(name)
  {
  }

  // ----------------------------------------------------------------------- authentication

  /** The authenticator a response is for: the origin's for a 401, the proxy's for a 407 from a selected proxy. */
  ghost predicate AnswersChallenge(env: Environment, k: nat, request: Request, response: Response, answer: AuthAnswer) {
    || (response.status == 401 && env.authenticator.Some? && env.authenticator.value(k, request, response) == answer)
    || (response.status == 407 && response.selectedProxy && env.proxyAuthenticator.Some?
        && env.proxyAuthenticator.value(k, request, response) == answer)
  }

  /** Cookies of the answer cannot be stored, since its URI is no URL: that ends the call. */
  predicate CookiesFail(env: Environment, hop: Hop, response: Response) {
    env.jar.Some? && response.setsCookies && !env.parsesAsUrl(hop.request.uri)
  }

  /**
   * A request of an authenticator is sent exactly if the answer is a challenge for it, an attempt
   * is left and the body can be sent again; the authenticator saw the request without jar cookies.
   */
  lemma AuthFollowsExactly(config: Config, env: Environment, k: nat, hop: Hop, q: Request)
    requires ValidUri(hop.request.uri)
    ensures (exists c :: After(config, env, k, hop) == Again(q, c, Auth)) <==>
            && env.network(k, hop.sent).Answered? && !CookiesFail(env, hop, env.network(k, hop.sent).response)
            && hop.counters.auths < config.maxAuthAttempts && !hop.request.body.Streaming?
            && AnswersChallenge(env, k, hop.request, env.network(k, hop.sent).response, AuthRequest(q))
    ensures forall c :: After(config, env, k, hop) == Again(q, c, Auth) ==>
              c == hop.counters.(attempt := hop.counters.attempt + 1, auths := hop.counters.auths + 1)
  {
    hide ShouldRetry, ShouldRetryResponse, ValidUri, IsRedirectStatus, ShouldRedirect, OriginOf, SENSITIVE, CONTENT;
    var c := hop.counters.(attempt := hop.counters.attempt + 1, auths := hop.counters.auths + 1);
    assert After(config, env, k, hop) == Again(q, c, Auth) || forall c' :: After(config, env, k, hop) != Again(q, c', Auth);
  }

  // ------------------------------------------------------------------------------ retries

  predicate MayRepeat(verb: Method) {
    !verb.Post? && !verb.Patch? && !verb.Connect? && !verb.Extension?
  }

  /** The errors the retry policy takes as passing, as a table. */
  predicate IsPassing(p: RetryPolicy, e: WireError) {
    match e.establishment
    case None =>
      || (e.kind == KindCanceled && p.canceled)
      || (p.onConnectionFailure && (e.kind == KindDns || e.kind == KindConnect || e.kind == KindTls))
      || (p.onConnectionFailure && e.kind == KindTimeout && (e.phase == PhaseTcp || e.phase == PhaseProxyTunnel))
    case Some(c) =>
      p.onConnectionFailure &&
      (|| c.retryable
       || (c.stage == StageTcp && c.connectTimeout)
       || (e.kind == KindDns && e.phase == PhaseDns)
       || (e.kind == KindConnect && e.phase == PhaseTcp && c.stage != StageTcp)
       || (e.kind == KindTimeout && (e.phase == PhaseTcp || e.phase == PhaseProxyTunnel)))
  }

  lemma RetriedErrorsAre(p: RetryPolicy, e: WireError, retries: nat, replayable: bool, verb: Method)
    ensures ShouldRetry(p, e, retries, replayable, verb) <==>
            replayable && retries < p.maxRetries && (e.committed ==> MayRepeat(verb)) && IsPassing(p, e)
  {
  }

  /** A 408 that does not ask for a delay, a 503 that asks for an immediate retry. */
  predicate InvitesRetry(p: RetryPolicy, response: Response, verb: Method) {
    && (MayRepeat(verb) || p.nonIdempotent)
    && (|| (response.status == 408 && p.onConnectionFailure && (response.retryAfter == None || response.retryAfter == Some(Immediate)))
        || (response.status == 503 && response.retryAfter == Some(Immediate)))
  }

  /** A misdirected request over a coalesced connection; the maximum is taken modulo 2 to the 32. */
  predicate WasMisdirected(config: Config, hop: Hop, response: Response) {
    response.status == 421 && response.coalescedRetryable && hop.counters.retries < config.retry.maxRetries % 0x1_0000_0000
  }

  predicate Retries(config: Config, hop: Hop, result: NetworkResult) {
    && !hop.request.body.Streaming?
    && match result
       case NotReady => false
       case Broke(e) =>
         hop.counters.retries < config.retry.maxRetries && (e.committed ==> MayRepeat(hop.request.verb)) && IsPassing(config.retry, e)
       case Answered(response) =>
         || WasMisdirected(config, hop, response)
         || (hop.counters.retries < config.retry.maxRetries && InvitesRetry(config.retry, response, hop.request.verb))
  }

  lemma RetriedAnswersAre(p: RetryPolicy, response: Response, retries: nat, replayable: bool, verb: Method)
    ensures ShouldRetryResponse(p, response.status, retries, replayable, verb, response.retryAfter) <==>
            replayable && retries < p.maxRetries && InvitesRetry(p, response, verb)
  {
    match response.retryAfter {
      case None =>
      case Some(Immediate) =>
      case Some(Delayed) =>
      case Some(Invalid) =>
    }
  }

  lemma RetryOnceIs(config: Config, env: Environment, hop: Hop, noCoalescing: bool)
    requires !hop.request.body.Streaming? && config.retry.maxRetries > 0
    ensures RetryOnce(Capture(hop.request, Rebuildable(config, env)), hop.counters, noCoalescing) ==
            Again(hop.request.(noCoalescing := hop.request.noCoalescing || noCoalescing),
                  hop.counters.(attempt := hop.counters.attempt + 1, retries := hop.counters.retries + 1), Retry)
  {
  }

  lemma RedirectIsCause(config: Config, env: Environment, s: Snapshot, response: Response, c: Counters)
    requires ValidUri(s.uri)
    ensures FollowRedirect(config, env, s, response, c).Again? ==> FollowRedirect(config, env, s, response, c).cause == Redirect
  {
    hide ValidUri, RedirectRequest, ShouldRedirect, IsRedirectStatus;
  }

  lemma OnlyChallengesAreAuthenticated(config: Config, env: Environment, k: nat, s: Snapshot, response: Response, c: Counters)
    ensures Authenticate(config, env, k, s, response, c).Some? ==> response.status == 401 || response.status == 407
  {
  }

  lemma InvitingStatuses(p: RetryPolicy, response: Response, verb: Method)
    ensures InvitesRetry(p, response, verb) ==> response.status == 408 || response.status == 503
  {
  }

  /**
   * The request is sent again exactly for a passing error, a 408 or 503 that invites it, or a
   * misdirected request, with a retry left and a body that can be sent again; and it is the same
   * request, except that one misdirected may no longer use a coalesced connection.
   */
  lemma RetryFollowsExactly(config: Config, env: Environment, k: nat, hop: Hop)
    requires ValidUri(hop.request.uri)
    ensures var result := env.network(k, hop.sent);
            (After(config, env, k, hop).Again? && After(config, env, k, hop).cause == Retry) <==>
            Retries(config, hop, result) && (result.Answered? ==> !CookiesFail(env, hop, result.response))
    ensures var d, result := After(config, env, k, hop), env.network(k, hop.sent);
            d.Again? && d.cause == Retry ==>
              && d.request == hop.request.(noCoalescing := hop.request.noCoalescing || (result.Answered? && result.response.status == 421))
              && d.counters == hop.counters.(attempt := hop.counters.attempt + 1, retries := hop.counters.retries + 1)
  {
    hide ShouldRetry, ShouldRetryResponse, IsPassing, InvitesRetry, ValidUri, Authenticate, FollowRedirect, RetryOnce;
    var result, s := env.network(k, hop.sent), Capture(hop.request, Rebuildable(config, env));
    if config.retry.maxRetries > 0 && !hop.request.body.Streaming? {
      RetryOnceIs(config, env, hop, true);
      RetryOnceIs(config, env, hop, false);
    }
    match result {
      case NotReady =>
      case Broke(error) => RetriedErrorsAre(config.retry, error, hop.counters.retries, s.body.Some?, s.verb);
      case Answered(response) =>
        AuthIsCause(config, env, k, s, response, hop.counters);
        OnlyChallengesAreAuthenticated(config, env, k, s, response, hop.counters);
        RedirectIsCause(config, env, s, response, hop.counters);
        RetriedAnswersAre(config.retry, response, hop.counters.retries, s.body.Some?, s.verb);
        assert InvitesRetry(config.retry, response, s.verb) ==> response.status == 408 || response.status == 503 by {
          InvitingStatuses(config.retry, response, s.verb);
        }
    }
  }

  // ---------------------------------------------------------------------------- redirects

  predicate IsRedirection(status: nat) {
    status == 301 || status == 302 || status == 303 || status == 307 || status == 308
  }

  /** The answer sends the call on to `location`, which may or may not be followed. */
  predicate PointsTo(config: Config, env: Environment, hop: Hop, response: Response, location: Option<Uri>) {
    && config.redirect.follow && IsRedirection(response.status) && response.location.Some?
    && env.join(hop.request.uri, response.location.value) == location
  }

  /** From https to http, which the policy may forbid. */
  predicate LosesSecurity(config: Config, hop: Hop, location: Uri) {
    !config.redirect.allowInsecure && hop.request.uri.scheme == Some("https") && location.scheme == Some("http")
  }

  /** A 301, 302 or 303 turns everything but GET and HEAD into a GET. */
  predicate TurnsIntoGet(verb: Method, status: nat) {
    (status == 301 || status == 302 || status == 303) && verb != Get && verb != Head
  }

  /** The redirected request: where it goes, with which verb and body, and exactly which fields it keeps. */
  ghost predicate IsRedirected(r: Request, status: nat, location: Uri, q: Request)
    requires ValidUri(r.uri) && ValidUri(location)
  {
    && q.uri == location && q.noCoalescing == r.noCoalescing
    && q.verb == (if TurnsIntoGet(r.verb, status) then Get else r.verb)
    && q.body == (if TurnsIntoGet(r.verb, status) || r.body.Streaming? then Absent else r.body)
    && forall name ::
         && (name in q.headers <==>
               && name in r.headers && name != "host"
               && (IsCredential(name) ==> SameOrigin(r.uri, location))
               && (DescribesContent(name) ==> !TurnsIntoGet(r.verb, status)))
         && (name in q.headers ==> q.headers[name] == r.headers[name])
  }

  lemma ValidIsHttpUri(u: Uri)
    ensures ValidUri(u) <==> IsHttpUri(u)
  {
  }

  /** The redirect is followed: a valid location, a redirect left, no loss of security, and a body that can be sent again if it must be. */
  predicate MayFollow(config: Config, hop: Hop, status: nat, location: Uri) {
    && IsHttpUri(location) && hop.counters.redirects < config.redirect.maxRedirects && !LosesSecurity(config, hop, location)
    && (status == 307 || status == 308 ==> !hop.request.body.Streaming?)
  }

  lemma RebuiltIsRedirected(config: Config, env: Environment, hop: Hop, status: nat, location: Uri)
    requires config.redirect.follow && ValidUri(hop.request.uri) && ValidUri(location) && IsRedirection(status)
    ensures var s := Capture(hop.request, Rebuildable(config, env));
            var q := RedirectRequest(s, status, location);
            && (q == Success(None) <==> (status == 307 || status == 308) && hop.request.body.Streaming?)
            && (q == Success(None) || (q.Success? && q.value.Some? && IsRedirected(hop.request, status, location, q.value.value)))
  {
    hide OriginOf, SENSITIVE, CONTENT, IsCredential, DescribesContent, ValidUri;
    forall name ensures (name in SENSITIVE <==> IsCredential(name)) && (name in CONTENT <==> DescribesContent(name)) {
      ListedNames(name);
    }
  }

  lemma SnapshotKeeps(config: Config, env: Environment, hop: Hop)
    ensures var s := Capture(hop.request, Rebuildable(config, env));
            s.uri == hop.request.uri && s.verb == hop.request.verb && (s.body.Some? <==> !hop.request.body.Streaming?)
  {
  }

  /** What the redirect part of the loop decides about an answer that no one else took up. */
  lemma RedirectPartIs(config: Config, env: Environment, hop: Hop, response: Response)
    requires ValidUri(hop.request.uri)
    ensures var s := Capture(hop.request, Rebuildable(config, env));
            var d := FollowRedirect(config, env, s, response, hop.counters);
            if exists l :: PointsTo(config, env, hop, response, l) then
              var l := env.join(hop.request.uri, response.location.value);
              if l == None then d == Done(Failed(BadRedirect))
              else if !IsHttpUri(l.value) then d == Done(Failed(InvalidRequest))
              else if hop.counters.redirects >= config.redirect.maxRedirects then d == Done(Failed(TooManyRedirects))
              else if LosesSecurity(config, hop, l.value) then d == Done(Failed(InsecureRedirect))
              else if MayFollow(config, hop, response.status, l.value) then
                d.Again? && d.cause == Redirect && IsRedirected(hop.request, response.status, l.value, d.request)
                && d.counters == hop.counters.(attempt := hop.counters.attempt + 1, redirects := hop.counters.redirects + 1)
              else d == Done(Final(response))
            else d == Done(Final(response))
  {
    hide RedirectRequest, IsRedirected, ValidUri, Capture, IsHttpUri;
    SnapshotKeeps(config, env, hop);
    assert PointsTo(config, env, hop, response, if response.location.Some? then env.join(hop.request.uri, response.location.value) else None)
           || forall l :: !PointsTo(config, env, hop, response, l);
    if response.location.Some? {
      var l := env.join(hop.request.uri, response.location.value);
      if l.Some? {
        ValidIsHttpUri(l.value);
        if config.redirect.follow && IsRedirection(response.status) && ValidUri(l.value) {
          RebuiltIsRedirected(config, env, hop, response.status, l.value);
        }
      }
    }
  }

  lemma RedirectedGoesTo(r: Request, status: nat, location: Uri, d: Decision)
    ensures ValidUri(r.uri) && ValidUri(location) && d.Again? && IsRedirected(r, status, location, d.request) ==> d.request.uri == location
  {
  }

  lemma RetryIsCause(s: Snapshot, c: Counters)
    ensures RetryOnce(s, c, true).Again? ==> RetryOnce(s, c, true).cause == Retry
    ensures RetryOnce(s, c, false).Again? ==> RetryOnce(s, c, false).cause == Retry
  {
  }

  /**
   * A redirect is followed exactly if the answer points somewhere and it may be followed, and the
   * next request is the redirected one.
   */
  lemma RedirectFollowsExactly(config: Config, env: Environment, k: nat, hop: Hop)
    requires ValidUri(hop.request.uri)
    ensures var result, d := env.network(k, hop.sent), After(config, env, k, hop);
            (d.Again? && d.cause == Redirect) <==>
            && result.Answered? && !CookiesFail(env, hop, result.response)
            && exists l :: PointsTo(config, env, hop, result.response, Some(l)) && MayFollow(config, hop, result.response.status, l)
    ensures var result, d := env.network(k, hop.sent), After(config, env, k, hop);
            d.Again? && d.cause == Redirect ==>
              && ValidUri(d.request.uri) && IsRedirected(hop.request, result.response.status, d.request.uri, d.request)
              && PointsTo(config, env, hop, result.response, Some(d.request.uri))
              && d.counters == hop.counters.(attempt := hop.counters.attempt + 1, redirects := hop.counters.redirects + 1)
  {
    hide IsRedirected, ValidUri, Authenticate, FollowRedirect, RetryOnce, ShouldRetry, ShouldRetryResponse, InvitesRetry, IsHttpUri;
    var result, s := env.network(k, hop.sent), Capture(hop.request, Rebuildable(config, env));
    RetryIsCause(s, hop.counters);
    if result.Answered? {
      var response := result.response;
      RedirectPartIs(config, env, hop, response);
      AuthIsCause(config, env, k, s, response, hop.counters);
      OnlyChallengesAreAuthenticated(config, env, k, s, response, hop.counters);
      RetriedAnswersAre(config.retry, response, hop.counters.retries, s.body.Some?, s.verb);
      InvitingStatuses(config.retry, response, s.verb);
      if response.location.Some? && env.join(hop.request.uri, response.location.value).Some? {
        var l := env.join(hop.request.uri, response.location.value).value;
        ValidIsHttpUri(l);
        assert forall l' :: PointsTo(config, env, hop, response, Some(l')) ==> l' == l;
        RedirectedGoesTo(hop.request, response.status, l, After(config, env, k, hop));
      }
    }
  }

  // ----------------------------------------------------------------------- how a call ends

  /** A challenge that its authenticator was asked about, and what it said. */
  ghost predicate WasAsked(config: Config, env: Environment, k: nat, hop: Hop, response: Response, answer: AuthAnswer) {
    && hop.counters.auths < config.maxAuthAttempts && !hop.request.body.Streaming?
    && AnswersChallenge(env, k, hop.request, response, answer)
  }

  lemma AuthenticateIs(config: Config, env: Environment, k: nat, hop: Hop, response: Response)
    ensures var a := Authenticate(config, env, k, Capture(hop.request, Rebuildable(config, env)), response, hop.counters);
            && (a == Some(Done(Failed(AuthenticatorError))) <==> WasAsked(config, env, k, hop, response, AuthBroke))
            && (a.Some? && a.value.Again? <==> exists q :: WasAsked(config, env, k, hop, response, AuthRequest(q)))
            && (a.Some? ==> a.value.Again? || a.value == Done(Failed(AuthenticatorError)))
  {
    var a := Authenticate(config, env, k, Capture(hop.request, Rebuildable(config, env)), response, hop.counters);
    if a.Some? && a.value.Again? {
      assert WasAsked(config, env, k, hop, response, AuthRequest(a.value.request));
    }
  }

  /** An answer that is not retried and no challenge is left to the redirect part. */
  lemma NoRetryNoDecision(config: Config, env: Environment, k: nat, hop: Hop, response: Response)
    requires ValidUri(hop.request.uri) && env.network(k, hop.sent) == Answered(response)
    ensures var s := Capture(hop.request, Rebuildable(config, env));
            var a := Authenticate(config, env, k, s, response, hop.counters);
            && (CookiesFail(env, hop, response) ==> After(config, env, k, hop) == Done(Failed(BadUrl)))
            && (!CookiesFail(env, hop, response) && a.Some? ==> After(config, env, k, hop) == a.value)
            && (!CookiesFail(env, hop, response) && a.None? && !Retries(config, hop, Answered(response)) ==>
                  After(config, env, k, hop) == FollowRedirect(config, env, s, response, hop.counters))
  {
    hide Authenticate, FollowRedirect, RetryOnce, ShouldRetryResponse, InvitesRetry, ValidUri;
    RetriedAnswersAre(config.retry, response, hop.counters.retries, TryClone(hop.request.body).Some?, hop.request.verb);
  }

  /**
   * How a call ends when there is no follow-up: with the network's error, with the first thing
   * that went wrong about the answer, or with the answer itself.
   */
  lemma EndIsExact(config: Config, env: Environment, k: nat, hop: Hop)
    requires ValidUri(hop.request.uri)
    ensures var result, d := env.network(k, hop.sent), After(config, env, k, hop);
            match result
            case NotReady => d == Done(Failed(NetworkNotReady))
            case Broke(e) => !Retries(config, hop, result) ==> d == Done(Failed(Network(e)))
            case Answered(response) =>
              if CookiesFail(env, hop, response) then d == Done(Failed(BadUrl))
              else if WasAsked(config, env, k, hop, response, AuthBroke) then d == Done(Failed(AuthenticatorError))
              else if (exists q :: WasAsked(config, env, k, hop, response, AuthRequest(q))) || Retries(config, hop, result) then d.Again?
              else if exists l :: PointsTo(config, env, hop, response, l) then
                var l := env.join(hop.request.uri, response.location.value);
                if l == None then d == Done(Failed(BadRedirect))
                else if !IsHttpUri(l.value) then d == Done(Failed(InvalidRequest))
                else if hop.counters.redirects >= config.redirect.maxRedirects then d == Done(Failed(TooManyRedirects))
                else if LosesSecurity(config, hop, l.value) then d == Done(Failed(InsecureRedirect))
                else if (response.status == 307 || response.status == 308) && hop.request.body.Streaming? then d == Done(Final(response))
                else d.Again?
              else d == Done(Final(response))
  {
    RetryFollowsExactly(config, env, k, hop);
    var result, s := env.network(k, hop.sent), Capture(hop.request, Rebuildable(config, env));
    if result.Answered? {
      AuthenticateIs(config, env, k, hop, result.response);
      OnlyChallengesAreAuthenticated(config, env, k, s, result.response, hop.counters);
      RedirectPartIs(config, env, hop, result.response);
      NoRetryNoDecision(config, env, k, hop, result.response);
    }
    hide Retries, Authenticate, FollowRedirect, RetryOnce, ShouldRetry, ShouldRetryResponse, WasAsked, IsHttpUri, ValidUri, IsRedirected, PointsTo, RetryMisdirected, Capture;
  }

  // -------------------------------------------------------------------------- whole runs

  lemma NextHasACause(config: Config, env: Environment, k: nat, hop: Hop)
    requires ValidUri(hop.request.uri)
    ensures After(config, env, k, hop).Again? ==> After(config, env, k, hop).cause != First
  {
    hide ShouldRetry, ShouldRetryResponse, ValidUri, IsRedirectStatus, ShouldRedirect, RedirectRequest;
  }

  /** Along every run, what led from each hop to the next. */
  lemma HopsFollowExactly(config: Config, env: Environment, hops: seq<Hop>, k: nat)
    requires IsRun(config, env, hops) && k + 1 < |hops|
    ensures var hop, next, result := hops[k], hops[k + 1], env.network(k, hops[k].sent);
            && (next.cause == Auth <==>
                  result.Answered? && WasAsked(config, env, k, hop, result.response, AuthRequest(next.request)))
            && (next.cause == Retry <==> Retries(config, hop, result))
            && (next.cause == Redirect <==>
                  result.Answered? && PointsTo(config, env, hop, result.response, Some(next.request.uri))
                  && MayFollow(config, hop, result.response.status, next.request.uri))
            && (next.cause == Retry ==>
                  next.request == hop.request.(noCoalescing := hop.request.noCoalescing || (result.Answered? && result.response.status == 421)))
            && (next.cause == Redirect ==>
                  ValidUri(hop.request.uri) && ValidUri(next.request.uri)
                  && IsRedirected(hop.request, result.response.status, next.request.uri, next.request))
  {
    Steps(config, env, hops, k);
    Steps(config, env, hops, k + 1);
    var hop := hops[k];
    assert ValidUri(hop.request.uri) && ValidUri(hops[k + 1].request.uri);
    AuthFollowsExactly(config, env, k, hop, hops[k + 1].request);
    RetryFollowsExactly(config, env, k, hop);
    RedirectFollowsExactly(config, env, k, hop);
    EndIsExact(config, env, k, hop);
    NextHasACause(config, env, k, hop);
    hide IsRun, After, Retries, MayFollow, AnswersChallenge, IsRedirected, PointsTo, ValidUri, IsHttpUri, WithCookies;
  }

  /** Every URI that is ever sent to is http or https, without user information and with a host. */
  lemma HopsAreHttp(config: Config, env: Environment, hops: seq<Hop>, k: nat)
    requires IsRun(config, env, hops) && k < |hops|
    ensures IsHttpUri(hops[k].sent.uri) && hops[k].sent.uri == hops[k].request.uri
  {
    Steps(config, env, hops, k);
    ValidIsHttpUri(hops[k].request.uri);
    CookiesOnlyAdd(env, k, hops[k]);
    hide *;
  }

  /**
   * A credential of the caller that goes out at a hop went only to hops with its own scheme, host
   * and port before, and goes out with the caller's values.
   */
  lemma CredentialsStayAtOrigin(config: Config, env: Environment, hops: seq<Hop>, j: nat, k: nat, name: string)
    requires IsRun(config, env, hops) && j <= k < |hops| && NoAuth(hops, 0, k)
    requires IsCredential(name) && name != "cookie" && name in hops[k].sent.headers
    ensures var u, v := hops[0].request.uri, hops[j].request.uri;
            && u.host.Some? && v.host.Some? && u.scheme == v.scheme && SameIgnoringCase(u.host.value, v.host.value)
            && (u.port == v.port
                || (u.port == None && v.port == Some(if u.scheme == Some("http") then 80 else 443))
                || (v.port == None && u.port == Some(if u.scheme == Some("http") then 80 else 443)))
    ensures name in hops[0].request.headers && hops[k].sent.headers[name] == hops[0].request.headers[name]
  {
    ListedNames(name);
    Steps(config, env, hops, 0);
    Steps(config, env, hops, j);
    Steps(config, env, hops, k);
    SensitiveFieldsAreConfined(config, env, hops, 0, k, name);
    CookiesOnlyAdd(env, k, hops[k]);
    SameOriginIs(hops[0].request.uri, hops[j].request.uri);
    hide IsRun, WithCookies, SENSITIVE, OriginOf, SameIgnoringCase;
    assert StaysAtOrigin(hops, 0, k);
  }
}
