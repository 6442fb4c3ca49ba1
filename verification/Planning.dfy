/** Connection addresses and routes: the keys the scheduler, the limiter and the pool share. */
module Planning {
  import opened Wrappers

  datatype UriScheme = Http | Https

  datatype AuthorityKey = AuthorityKey(host: string, port: nat)

  datatype ProtocolPolicy = Http1Only | Http2Only | Http1OrHttp2

  datatype ProxyConfig = ProxyConfig(mode: nat, endpoint: AuthorityKey)

  datatype Address = Address(
    scheme: UriScheme,
    authority: AuthorityKey,
    proxy: Option<ProxyConfig>,
    protocolPolicy: ProtocolPolicy,
    dnsPolicy: string)

  datatype RouteFamily = Ipv4 | Ipv6

  datatype SocketAddr = SocketAddr(family: RouteFamily, ip: seq<nat>, port: nat)

  datatype RouteKind =
    | Direct(target: SocketAddr)
    | HttpForwardProxy(proxy: SocketAddr)
    | ConnectProxy(proxy: SocketAddr)
    | SocksProxy(proxy: SocketAddr)

  datatype Route = Route(address: Address, kind: RouteKind)
}
