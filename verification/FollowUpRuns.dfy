/** What holds along every run of the follow-up loop. */
module FollowUpRuns {
  import opened Wrappers
  import opened FollowUpPolicy
  import opened FollowUp

  lemma Steps(config: Config, env: Environment, hops: seq<Hop>, k: nat)
    requires IsRun(config, env, hops) && k < |hops|
    ensures IsSent(env, k, hops[k])
    ensures k + 1 < |hops| ==>
              After(config, env, k, hops[k]) == Again(hops[k + 1].request, hops[k + 1].counters, hops[k + 1].cause)
  {
    hide After, WithCookies, ValidUri;
    assert k + 1 < |hops| ==> hops[k + 1 - 1] == hops[k];
  }

  // ---------------------------------------------------------------------------- budgets

  function Spent(c: Counters): nat {
    c.retries + c.redirects + c.auths
  }

  /** The attempt number counts the follow-ups, and each of them used up one unit of budget. */
  lemma {:induction false} AttemptsAreAccountedFor(config: Config, env: Environment, hops: seq<Hop>, k: nat)
    requires IsRun(config, env, hops) && k < |hops|
    ensures Remaining(config, hops[k].counters) + k == Remaining(config, hops[0].counters)
    ensures hops[k].counters.attempt == hops[0].counters.attempt + k
    ensures Spent(hops[k].counters) == Spent(hops[0].counters) + k
  {
    hide After, Remaining, ValidUri, WithCookies;
    if k == 0 {
    } else {
      AttemptsAreAccountedFor(config, env, hops, k - 1);
      Steps(config, env, hops, k - 1);
      FollowUpSpendsBudget(config, env, k - 1, hops[k - 1]);
    }
  }

  /** From fresh counters, no run makes more calls than one plus the three maxima. */
  lemma CallsAreBounded(config: Config, env: Environment, hops: seq<Hop>)
    requires IsRun(config, env, hops) && hops != [] && hops[0].counters == Counters(hops[0].counters.attempt, 0, 0, 0)
    ensures |hops| <= 1 + config.retry.maxRetries + config.redirect.maxRedirects + config.maxAuthAttempts
    ensures forall k :: 0 <= k < |hops| ==>
              && hops[k].counters.attempt == hops[0].counters.attempt + Spent(hops[k].counters)
              && Spent(hops[k].counters) == k
  {
    hide IsRun;
    forall k | 0 <= k < |hops|
      ensures Remaining(config, hops[k].counters) + k == Remaining(config, hops[0].counters)
      ensures hops[k].counters.attempt == hops[0].counters.attempt + k && Spent(hops[k].counters) == k
    {
      AttemptsAreAccountedFor(config, env, hops, k);
    }
    AttemptsAreAccountedFor(config, env, hops, |hops| - 1);
  }

  // ------------------------------------------------------------------------ confinement

  /** The hops after `b` up to `k` are retries and redirects. */
  predicate NoAuth(hops: seq<Hop>, b: nat, k: nat)
    requires b <= k < |hops|
  {
    forall j :: b < j <= k ==> hops[j].cause != Auth
  }

  /** All the URIs from hop `b` to hop `k` have one origin. */
  ghost predicate StaysAtOrigin(hops: seq<Hop>, b: nat, k: nat)
    requires b <= k < |hops| && forall j :: b <= j <= k ==> ValidUri(hops[j].request.uri)
  {
    forall j :: b <= j <= k ==> SameOrigin(hops[b].request.uri, hops[j].request.uri)
  }

  lemma NamesApart(name: string)
    requires name in SENSITIVE
    ensures name != "host" && name !in CONTENT
  {
    assert |"host"| == 4 && |"expect"| == 6 && |"content-type"| == 12 && |"content-length"| == 14;
    assert |"content-encoding"| == 16 && |"transfer-encoding"| == 17;
    assert |"authorization"| == 13 && |"cookie"| == 6 && |"x-api-key"| == 9;
    assert "cookie"[0] == 'c' && "expect"[0] == 'e' && "x-auth-token"[0] == 'x' && "content-type"[0] == 'c';
    assert "x-access-token"[0] == 'x' && "content-length"[0] == 'c';
  }

  lemma AuthIsCause(config: Config, env: Environment, k: nat, s: Snapshot, response: Response, c: Counters)
    ensures Authenticate(config, env, k, s, response, c).Some? && Authenticate(config, env, k, s, response, c).value.Again? ==>
            Authenticate(config, env, k, s, response, c).value.cause == Auth
  {
  }

  /** A retry or a redirect keeps a sensitive field exactly if it stays at the origin. */
  lemma StepConfines(config: Config, env: Environment, k: nat, hop: Hop, name: string)
    requires ValidUri(hop.request.uri) && After(config, env, k, hop).Again? && After(config, env, k, hop).cause != Auth
    requires name in SENSITIVE
    ensures var next := After(config, env, k, hop).request;
            && ValidUri(next.uri)
            && (name in next.headers <==> name in hop.request.headers && SameOrigin(hop.request.uri, next.uri))
            && (name in next.headers ==> next.headers[name] == hop.request.headers[name])
  {
    hide RetryByPhase, RetryByStage, RetryByKind, ShouldRetry, ShouldRetryResponse, ShouldRedirect, OriginOf, IsRedirectStatus, ValidUri;
    NamesApart(name);
    var s := Capture(hop.request, Rebuildable(config, env));
    var result := env.network(k, hop.sent);
    if result.Answered? {
      AuthIsCause(config, env, k, s, result.response, hop.counters);
    }
  }

  /**
   * Along every run, as long as no authenticator steps in, a sensitive field of the request is
   * carried to a hop exactly if every URI on the way had the origin it was given for.
   */
  lemma {:induction false} SensitiveFieldsAreConfined(config: Config, env: Environment, hops: seq<Hop>, b: nat, k: nat, name: string)
    requires IsRun(config, env, hops) && b <= k < |hops| && NoAuth(hops, b, k) && name in SENSITIVE
    ensures name in hops[k].request.headers <==> name in hops[b].request.headers && StaysAtOrigin(hops, b, k)
    ensures name in hops[k].request.headers ==> hops[k].request.headers[name] == hops[b].request.headers[name]
    decreases k
  {
    hide After, WithCookies, ValidUri, OriginOf, SENSITIVE;
    if b == k {
    } else {
      SensitiveFieldsAreConfined(config, env, hops, b, k - 1, name);
      Steps(config, env, hops, k - 1);
      StepConfines(config, env, k - 1, hops[k - 1], name);
      assert StaysAtOrigin(hops, b, k) <==> StaysAtOrigin(hops, b, k - 1) && SameOrigin(hops[k - 1].request.uri, hops[k].request.uri);
    }
  }

  /** Cookies only change the `cookie` field, and only if the request has none. */
  lemma CookiesOnlyAdd(env: Environment, k: nat, hop: Hop)
    requires IsSent(env, k, hop)
    ensures forall name :: name != "cookie" ==>
              (name in hop.sent.headers <==> name in hop.request.headers) &&
              (name in hop.sent.headers ==> hop.sent.headers[name] == hop.request.headers[name])
    ensures "cookie" in hop.request.headers ==> hop.sent == hop.request
    ensures "cookie" !in hop.request.headers ==>
              if env.jar.None? || env.jar.value(k, hop.request.uri).None? then "cookie" !in hop.sent.headers
              else "cookie" in hop.sent.headers && hop.sent.headers["cookie"] == [env.jar.value(k, hop.request.uri).value]
    ensures hop.sent == hop.request.(headers := hop.sent.headers)
  {
    hide ValidUri;
  }

  lemma CookieIsSensitive()
    ensures "cookie" in SENSITIVE
  {
  }

  /**
   * What goes over the wire: a caller's sensitive field only to its own origin, and without a
   * caller's cookie just what the jar has for the URI of that very attempt.
   */
  lemma WireIsConfined(config: Config, env: Environment, hops: seq<Hop>, k: nat, name: string)
    requires IsRun(config, env, hops) && k < |hops| && NoAuth(hops, 0, k) && name in SENSITIVE
    ensures name != "cookie" ==>
              (name in hops[k].sent.headers <==> name in hops[0].request.headers && StaysAtOrigin(hops, 0, k))
    ensures "cookie" in hops[0].request.headers && StaysAtOrigin(hops, 0, k) ==>
              "cookie" in hops[k].sent.headers && hops[k].sent.headers["cookie"] == hops[0].request.headers["cookie"]
    ensures !("cookie" in hops[0].request.headers && StaysAtOrigin(hops, 0, k)) ==>
              if env.jar.None? || env.jar.value(k, hops[k].request.uri).None? then "cookie" !in hops[k].sent.headers
              else "cookie" in hops[k].sent.headers && hops[k].sent.headers["cookie"] == [env.jar.value(k, hops[k].request.uri).value]
  {
    SensitiveFieldsAreConfined(config, env, hops, 0, k, name);
    CookieIsSensitive();
    SensitiveFieldsAreConfined(config, env, hops, 0, k, "cookie");
    Steps(config, env, hops, k);
    CookiesOnlyAdd(env, k, hops[k]);
    hide *;
  }

  // ------------------------------------------------------------- what follow-ups preserve

  predicate SameField(h: Headers, h': Headers, name: string) {
    (name in h' <==> name in h) && (name in h' ==> h'[name] == h[name])
  }

  predicate WithoutContent(r: Request) {
    r.verb == Get && r.body == Absent && forall name :: name in CONTENT ==> name !in r.headers
  }

  /** `r'` asks for what `r` asks for: the same, perhaps without the body, or as a plain GET. */
  predicate Continues(r: Request, r': Request) {
    || (r'.verb == r.verb && (r'.body == r.body || r'.body == Absent))
    || WithoutContent(r')
  }

  lemma StepPreserves(config: Config, env: Environment, k: nat, hop: Hop, name: string)
    requires ValidUri(hop.request.uri) && After(config, env, k, hop).Again? && After(config, env, k, hop).cause != Auth
    ensures var next := After(config, env, k, hop).request;
            && (name !in SENSITIVE && name !in CONTENT && name != "host" ==> SameField(hop.request.headers, next.headers, name))
            && Continues(hop.request, next) && (WithoutContent(hop.request) ==> WithoutContent(next))
            && (hop.request.noCoalescing ==> next.noCoalescing)
  {
    hide RetryByPhase, RetryByStage, RetryByKind, ShouldRetry, ShouldRetryResponse, ShouldRedirect, OriginOf, IsRedirectStatus, ValidUri, SENSITIVE, CONTENT;
    var s := Capture(hop.request, Rebuildable(config, env));
    var result := env.network(k, hop.sent);
    if result.Answered? {
      AuthIsCause(config, env, k, s, result.response, hop.counters);
    }
  }

  /**
   * Between authentication follow-ups every field that is neither sensitive nor about the
   * content, `host` aside, arrives unchanged, and the request is still the caller's: the same
   * verb, with its body or without, or a GET without body and content fields.
   */
  lemma {:induction false} RequestsAreContinued(config: Config, env: Environment, hops: seq<Hop>, b: nat, k: nat, name: string)
    requires IsRun(config, env, hops) && b <= k < |hops| && NoAuth(hops, b, k)
    ensures name !in SENSITIVE && name !in CONTENT && name != "host" ==>
              SameField(hops[b].request.headers, hops[k].request.headers, name)
    ensures Continues(hops[b].request, hops[k].request)
    ensures hops[b].request.noCoalescing ==> hops[k].request.noCoalescing
    decreases k
  {
    hide After, WithCookies, ValidUri, SENSITIVE, CONTENT;
    if b == k {
    } else {
      RequestsAreContinued(config, env, hops, b, k - 1, name);
      Steps(config, env, hops, k - 1);
      StepPreserves(config, env, k - 1, hops[k - 1], name);
    }
  }

  /** A redirect with 307 or 308 repeats verb and body; with the others only GET and HEAD stay as they are. */
  lemma RedirectsRewrite(config: Config, env: Environment, hops: seq<Hop>, k: nat)
    requires IsRun(config, env, hops) && k + 1 < |hops| && hops[k + 1].cause == Redirect
    ensures env.network(k, hops[k].sent).Answered?
    ensures var status, r, r' := env.network(k, hops[k].sent).response.status, hops[k].request, hops[k + 1].request;
            && IsRedirectStatus(status)
            && (PreservesBody(status) ==> r'.verb == r.verb && r'.body == r.body && !r.body.Streaming?)
            && (!PreservesBody(status) && (r.verb.Get? || r.verb.Head?) ==> r'.verb == r.verb)
            && (!PreservesBody(status) && !r.verb.Get? && !r.verb.Head? ==> WithoutContent(r'))
  {
    hide RetryByPhase, RetryByStage, RetryByKind, ShouldRetry, ShouldRetryResponse, OriginOf, ValidUri, SENSITIVE, CONTENT;
    Steps(config, env, hops, k);
    var hop := hops[k];
    var result := env.network(k, hop.sent);
    if result.Answered? {
      AuthIsCause(config, env, k, Capture(hop.request, Rebuildable(config, env)), result.response, hop.counters);
    }
  }

  lemma MisdirectedStep(config: Config, env: Environment, k: nat, hop: Hop)
    requires ValidUri(hop.request.uri) && After(config, env, k, hop).Again? && After(config, env, k, hop).cause == Retry
    requires env.network(k, hop.sent).Answered? && env.network(k, hop.sent).response.status == 421
    ensures After(config, env, k, hop).request.noCoalescing
  {
    hide RetryByPhase, RetryByStage, RetryByKind, OriginOf, ValidUri;
    AuthIsCause(config, env, k, Capture(hop.request, Rebuildable(config, env)), env.network(k, hop.sent).response, hop.counters);
  }

  /** Once a 421 was retried, no later hop may use a coalesced connection. */
  lemma MisdirectedBansCoalescing(config: Config, env: Environment, hops: seq<Hop>, b: nat, k: nat)
    requires IsRun(config, env, hops) && b < k < |hops| && NoAuth(hops, b, k) && hops[b + 1].cause == Retry
    requires env.network(b, hops[b].sent).Answered? && env.network(b, hops[b].sent).response.status == 421
    ensures hops[k].request.noCoalescing
  {
    hide After, WithCookies, ValidUri;
    Steps(config, env, hops, b);
    MisdirectedStep(config, env, b, hops[b]);
    RequestsAreContinued(config, env, hops, b + 1, k, "host");
  }

  // ------------------------------------------------------------------- no way back to http

  lemma StepStaysSecure(config: Config, env: Environment, k: nat, hop: Hop)
    requires !config.redirect.allowInsecure && ValidUri(hop.request.uri) && hop.request.uri.scheme == Some("https")
    requires After(config, env, k, hop).Again? && After(config, env, k, hop).cause != Auth
    ensures After(config, env, k, hop).request.uri.scheme == Some("https")
  {
    hide RetryByPhase, RetryByStage, RetryByKind, ShouldRetry, ShouldRetryResponse, OriginOf, IsRedirectStatus;
    var s := Capture(hop.request, Rebuildable(config, env));
    var result := env.network(k, hop.sent);
    if result.Answered? {
      AuthIsCause(config, env, k, s, result.response, hop.counters);
    }
  }

  /** With the default policy, retries and redirects never lead from https to http. */
  lemma {:induction false} RunsStaySecure(config: Config, env: Environment, hops: seq<Hop>, b: nat, k: nat)
    requires IsRun(config, env, hops) && b <= k < |hops| && NoAuth(hops, b, k)
    requires !config.redirect.allowInsecure && hops[b].request.uri.scheme == Some("https")
    ensures hops[k].request.uri.scheme == Some("https")
    decreases k
  {
    hide After, WithCookies, ValidUri;
    if b == k {
    } else {
      RunsStaySecure(config, env, hops, b, k - 1);
      Steps(config, env, hops, k - 1);
      StepStaysSecure(config, env, k - 1, hops[k - 1]);
    }
  }

  // --------------------------------------------------------------- what is never sent again

  /** A streaming body goes out once: only a redirect without a body can follow. */
  lemma StreamingBodyIsSentOnce(config: Config, env: Environment, hops: seq<Hop>, k: nat)
    requires IsRun(config, env, hops) && k + 1 < |hops| && hops[k].request.body.Streaming?
    ensures hops[k + 1].cause == Redirect && hops[k + 1].request.body == Absent
  {
    hide RetryByPhase, RetryByStage, RetryByKind, OriginOf, IsRedirectStatus, ValidUri, ShouldRedirect;
    Steps(config, env, hops, k);
  }

  /** After an error that left the request committed, a request that is not idempotent is not repeated. */
  lemma CommittedIsNotRepeated(config: Config, env: Environment, hops: seq<Hop>, k: nat)
    requires IsRun(config, env, hops) && k < |hops| && !IsIdempotent(hops[k].request.verb)
    requires env.network(k, hops[k].sent).Broke? && env.network(k, hops[k].sent).error.committed
    ensures k == |hops| - 1
  {
    Steps(config, env, hops, k);
  }

  /** The light capture is never asked for what it left out. */
  lemma SnapshotsSuffice(config: Config, env: Environment, k: nat, hop: Hop)
    requires ValidUri(hop.request.uri)
    ensures After(config, env, k, hop) != Done(Failed(LightSnapshot))
    ensures After(config, env, k, hop) != Done(Failed(BodyNotCloneable))
  {
    hide RetryByPhase, RetryByStage, RetryByKind, OriginOf, IsRedirectStatus, ValidUri, ShouldRedirect;
  }
}
