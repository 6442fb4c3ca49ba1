/** Requests, responses and the built-in retry and redirect policies. */
module FollowUpPolicy {
  import opened Wrappers
  import opened HttpTokens

  datatype Method = Get | Head | Options | Trace | Put | Delete | Post | Patch | Connect | Extension(name: string)

  predicate IsIdempotent(m: Method) {
    m.Get? || m.Head? || m.Options? || m.Trace? || m.Put? || m.Delete?
  }

  /** A streaming body can be sent once; the others can be cloned. */
  datatype Body = Absent | Bytes(content: string) | Streaming(id: nat)

  function TryClone(b: Body): Option<Body> {
    if b.Streaming? then None else Some(b)
  }

  datatype Uri = Uri(scheme: Option<string>, userinfo: bool, host: Option<string>, port: Option<nat>, path: string)

  predicate ValidUri(u: Uri) {
    && u.scheme.Some? && (u.scheme.value == "http" || u.scheme.value == "https")
    && !u.userinfo && u.host.Some?
  }

  datatype Origin = Origin(scheme: string, host: string, port: nat)

  function OriginOf(u: Uri): Origin
    requires ValidUri(u)
  {
    Origin(u.scheme.value, Lower(u.host.value),
           if u.port.Some? then u.port.value else if u.scheme.value == "http" then 80 else 443)
  }

  predicate SameOrigin(u: Uri, v: Uri)
    requires ValidUri(u) && ValidUri(v)
  {
    OriginOf(u) == OriginOf(v)
  }

  /** Field names are in lower case. */
  type Headers = map<string, seq<string>>

  datatype Request = Request(verb: Method, uri: Uri, headers: Headers, body: Body, noCoalescing: bool)

  datatype RetryAfter = Immediate | Delayed | Invalid

  datatype Response = Response(
    status: nat,
    location: Option<string>,
    setsCookies: bool,
    retryAfter: Option<RetryAfter>,
    selectedProxy: bool,
    coalescedRetryable: bool)

  // ------------------------------------------------------------------------ retry policy

  datatype ErrorKind = KindTimeout | KindCanceled | KindDns | KindConnect | KindTls | KindProtocol | KindOther

  datatype Phase = PhaseDns | PhaseTcp | PhaseProxyTunnel | PhaseTls | PhaseProtocolBinding | PhaseOther

  datatype Stage = StageDns | StageTcp | StageTls | StageProtocolBinding | StageProxyTunnel | StageRouteExhausted

  datatype Establishment = Establishment(stage: Stage, retryable: bool, connectTimeout: bool)

  datatype WireError = WireError(kind: ErrorKind, phase: Phase, establishment: Option<Establishment>, committed: bool) {
    predicate RetryableEstablishment() {
      establishment.Some? && establishment.value.retryable
    }

    predicate ConnectTimeout() {
      establishment.Some? && establishment.value.connectTimeout
    }

    predicate NonRetryableConnect() {
      establishment.Some? && establishment.value.stage == StageTcp && !establishment.value.retryable
    }
  }

  datatype RetryPolicy = RetryPolicy(onConnectionFailure: bool, maxRetries: nat, canceled: bool, nonIdempotent: bool)

  predicate RetryByPhase(p: RetryPolicy, e: WireError) {
    p.onConnectionFailure &&
    match (e.kind, e.phase)
    case (KindDns, PhaseDns) => true
    case (KindConnect, PhaseTcp) => !e.NonRetryableConnect()
    case (KindConnect, PhaseProxyTunnel) => e.RetryableEstablishment()
    case (KindTls, PhaseTls) => e.RetryableEstablishment()
    case (KindProtocol, PhaseProtocolBinding) => e.RetryableEstablishment()
    case (KindTimeout, PhaseTcp) => true
    case (KindTimeout, PhaseProxyTunnel) => true
    case _ => false
  }

  /** `None` when the stage does not settle it. */
  function RetryByStage(p: RetryPolicy, e: WireError): Option<bool> {
    match e.establishment
    case None => None
    case Some(c) =>
      if c.retryable || (c.stage == StageTcp && c.connectTimeout) then Some(p.onConnectionFailure)
      else Some(false)
  }

  predicate RetryByKind(p: RetryPolicy, e: WireError) {
    match e.kind
    case KindCanceled => p.canceled
    case KindDns => p.onConnectionFailure
    case KindConnect => p.onConnectionFailure && !e.NonRetryableConnect()
    case KindTls => p.onConnectionFailure
    case KindTimeout => p.onConnectionFailure && e.ConnectTimeout()
    case _ => false
  }

  predicate ShouldRetry(p: RetryPolicy, e: WireError, retries: nat, replayable: bool, verb: Method) {
    if !replayable || retries >= p.maxRetries then false
    else if e.committed && !IsIdempotent(verb) then false
    else if RetryByPhase(p, e) then true
    else
      match RetryByStage(p, e)
      case Some(b) => b
      case None => RetryByKind(p, e)
  }

  predicate ShouldRetryResponse(p: RetryPolicy, status: nat, retries: nat, replayable: bool, verb: Method, after: Option<RetryAfter>) {
    if !replayable || retries >= p.maxRetries then false
    else if !IsIdempotent(verb) && !p.nonIdempotent then false
    else
      || (status == 408 && p.onConnectionFailure && after != Some(Delayed) && after != Some(Invalid))
      || (status == 503 && after == Some(Immediate))
  }

  // --------------------------------------------------------------------- redirect policy

  datatype RedirectPolicy = RedirectPolicy(follow: bool, maxRedirects: nat, allowInsecure: bool)

  datatype RedirectDecision = Follow | Stop | TooMany | Insecure

  predicate IsRedirectStatus(status: nat) {
    status in {301, 302, 303, 307, 308}
  }

  function ShouldRedirect(p: RedirectPolicy, uri: Uri, status: nat, location: Uri, redirects: nat): RedirectDecision {
    if !p.follow || !IsRedirectStatus(status) then Stop
    else if redirects >= p.maxRedirects then TooMany
    else if !p.allowInsecure && uri.scheme == Some("https") && location.scheme == Some("http") then Insecure
    else Follow
  }
}
