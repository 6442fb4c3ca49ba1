/**
 * The pool's two secondary indexes as values: what it means that they index a set of
 * connections, and how inserting and removing a connection moves that set.
 */
module PoolIndex {
  import opened Wrappers
  import opened Planning
  import opened Connections
  import opened Pool

  type Buckets = map<Address, Bucket>
  type ById = map<nat, Address>
  type Coalesced = map<SocketAddr, Bucket>

  function AddressOf(c: RealConnection): Address {
    c.info.route.address
  }

  function BucketAt(buckets: Buckets, a: Address): Bucket {
    if a in buckets then buckets[a] else []
  }

  predicate AllowsCoalescing(a: Address) {
    a.scheme == Https && a.proxy.None?
  }

  /** The target a connection is indexed under: only direct HTTPS HTTP/2 connections have one. */
  function IndexTarget(info: Info): Option<SocketAddr> {
    if info.protocol != Http2 || !AllowsCoalescing(info.route.address) then None
    else if info.route.kind.Direct? then Some(info.route.kind.target)
    else None
  }

  /** Every bucket is nonempty, holds connections of its own address, and none twice. */
  ghost predicate WellFormed(buckets: Buckets) {
    forall a :: a in buckets ==>
      buckets[a] != [] && DistinctIds(buckets[a]) && forall c :: c in buckets[a] ==> AddressOf(c) == a
  }

  ghost function Pooled(buckets: Buckets): set<RealConnection> {
    set a, c | a in buckets && c in buckets[a] :: c
  }

  ghost predicate IdsIndexed(u: set<RealConnection>, byId: ById) {
    && (forall c :: c in u ==> c.info.id in byId && byId[c.info.id] == AddressOf(c))
    && (forall id :: id in byId ==> exists c :: c in u && c.info.id == id)
    && (forall c, d :: c in u && d in u && c.info.id == d.info.id ==> c == d)
  }

  ghost predicate TargetsIndexed(u: set<RealConnection>, coalesced: Coalesced) {
    && (forall c :: c in u && IndexTarget(c.info).Some? ==>
          IndexTarget(c.info).value in coalesced && c in coalesced[IndexTarget(c.info).value])
    && (forall t :: t in coalesced ==> coalesced[t] != [] && DistinctIds(coalesced[t]))
    && (forall t, c :: t in coalesced && c in coalesced[t] ==> c in u && IndexTarget(c.info) == Some(t))
  }

  /** `byId` and `coalesced` index exactly the connections in `u`, and ids are unique in `u`. */
  ghost predicate Indexes(u: set<RealConnection>, byId: ById, coalesced: Coalesced) {
    IdsIndexed(u, byId) && TargetsIndexed(u, coalesced)
  }

  lemma PooledAt(buckets: Buckets, a: Address, c: RealConnection)
    requires WellFormed(buckets)
    ensures c in BucketAt(buckets, a) <==> c in Pooled(buckets) && AddressOf(c) == a
  {
  }

  /** Replacing one bucket by a part of it takes the rest out of the pool. */
  lemma PooledShrinks(buckets: Buckets, buckets': Buckets, a: Address, gone: set<RealConnection>)
    requires WellFormed(buckets)
    requires forall b :: b != a ==> BucketAt(buckets', b) == BucketAt(buckets, b) && (b in buckets' <==> b in buckets)
    requires forall c :: c in BucketAt(buckets', a) ==> c in BucketAt(buckets, a) && c !in gone
    requires forall c :: c in BucketAt(buckets, a) && c !in gone ==> c in BucketAt(buckets', a)
    requires forall c :: c in gone ==> c in BucketAt(buckets, a)
    ensures Pooled(buckets') == Pooled(buckets) - gone
  {
    forall c | c in Pooled(buckets) && c !in gone ensures c in Pooled(buckets') {
      PooledAt(buckets, AddressOf(c), c);
      assert c in BucketAt(buckets', AddressOf(c));
    }
    forall c | c in Pooled(buckets') ensures c in Pooled(buckets) && c !in gone {
      var b :| b in buckets' && c in buckets'[b];
      assert c in BucketAt(buckets, b);
    }
  }

  /** Pushing a connection with a new id onto its bucket adds just it to the pool. */
  lemma PooledGrows(buckets: Buckets, c: RealConnection)
    requires WellFormed(buckets) && forall d :: d in Pooled(buckets) ==> d.info.id != c.info.id
    ensures var buckets' := buckets[AddressOf(c) := BucketAt(buckets, AddressOf(c)) + [c]];
            WellFormed(buckets') && Pooled(buckets') == Pooled(buckets) + {c}
  {
    var a := AddressOf(c);
    var buckets' := buckets[a := BucketAt(buckets, a) + [c]];
    forall d | d in Pooled(buckets) + {c} ensures d in Pooled(buckets') {
      if d == c {
        assert d in buckets'[a];
      } else {
        PooledAt(buckets, AddressOf(d), d);
        assert d in buckets'[AddressOf(d)];
      }
    }
    forall d | d in BucketAt(buckets, a) ensures d.info.id != c.info.id {
      PooledAt(buckets, a, d);
    }
  }

  // ------------------------------------------------------------------- moving the indexes

  /** `b` without the connection that has the given id. */
  function WithoutId(b: Bucket, id: nat): (k: Bucket)
    ensures forall c :: c in k ==> c in b && c.info.id != id
    ensures forall c :: c in b && c.info.id != id ==> c in k
  {
    if b == [] then []
    else if b[0].info.id == id then WithoutId(b[1..], id)
    else [b[0]] + WithoutId(b[1..], id)
  }

  lemma {:induction false} WithoutIdDistinct(b: Bucket, id: nat)
    requires DistinctIds(b)
    ensures DistinctIds(WithoutId(b, id))
  {
    if b == [] {
    } else {
      WithoutIdDistinct(b[1..], id);
      var k := WithoutId(b[1..], id);
      forall i | 0 <= i < |k| ensures k[i].info.id != b[0].info.id {
        assert k[i] in b[1..];
      }
    }
  }

  function RemoveIndex(coalesced: Coalesced, info: Info): Coalesced {
    var target := IndexTarget(info);
    if target.None? || target.value !in coalesced then coalesced
    else
      var rest := WithoutId(coalesced[target.value], info.id);
      if rest == [] then coalesced - {target.value} else coalesced[target.value := rest]
  }

  function AddIndex(coalesced: Coalesced, c: RealConnection): Coalesced {
    var target := IndexTarget(c.info);
    if target.None? then coalesced
    else coalesced[target.value := (if target.value in coalesced then coalesced[target.value] else []) + [c]]
  }

  lemma RemoveKeepsTargets(u: set<RealConnection>, coalesced: Coalesced, c: RealConnection)
    requires TargetsIndexed(u, coalesced) && c in u
    requires forall d :: d in u && d.info.id == c.info.id ==> d == c
    ensures TargetsIndexed(u - {c}, RemoveIndex(coalesced, c.info))
  {
    var target := IndexTarget(c.info);
    if target.Some? {
      WithoutIdDistinct(coalesced[target.value], c.info.id);
    }
  }

  lemma RemoveKeepsIds(u: set<RealConnection>, byId: ById, c: RealConnection)
    requires IdsIndexed(u, byId) && c in u
    ensures IdsIndexed(u - {c}, byId - {c.info.id})
  {
    forall id | id in byId - {c.info.id} ensures exists d :: d in u - {c} && d.info.id == id {
      var d :| d in u && d.info.id == id;
    }
  }

  lemma AddKeepsTargets(u: set<RealConnection>, coalesced: Coalesced, c: RealConnection)
    requires TargetsIndexed(u, coalesced) && forall d :: d in u ==> d.info.id != c.info.id
    ensures TargetsIndexed(u + {c}, AddIndex(coalesced, c))
  {
  }

  lemma AddKeepsIds(u: set<RealConnection>, byId: ById, c: RealConnection)
    requires IdsIndexed(u, byId) && c.info.id !in byId
    ensures IdsIndexed(u + {c}, byId[c.info.id := AddressOf(c)])
  {
    var byId' := byId[c.info.id := AddressOf(c)];
    forall id | id in byId' ensures exists d :: d in u + {c} && d.info.id == id {
      if id != c.info.id {
        var d :| d in u && d.info.id == id;
        assert d in u + {c};
      } else {
        assert c in u + {c};
      }
    }
  }

  // ------------------------------------------------------------------------- coalescing

  predicate RequestAllowsCoalescing(a: Address) {
    AllowsCoalescing(a) && a.protocolPolicy != Http1Only
  }

  predicate RouteOverlap(route: Route, plan: seq<Route>) {
    route.kind.Direct? && exists i :: 0 <= i < |plan| && plan[i].kind == Direct(route.kind.target)
  }

  /** May a request to `request` over one of the planned routes use this connection? */
  predicate CanCoalesce(info: Info, request: Address, plan: seq<Route>) {
    && info.protocol == Http2
    && RequestAllowsCoalescing(request)
    && AllowsCoalescing(info.route.address)
    && info.route.address.authority.port == request.authority.port
    && info.route.address.authority != request.authority
    && (exists i :: 0 <= i < |info.verifiedServerNames| && VerifiedServerNameMatches(info.verifiedServerNames[i], request.authority.host))
    && RouteOverlap(info.route, plan)
  }

  /** A certificate name that is the host, or a wildcard whose star stands for one label of it. */
  ghost predicate NameCovers(name: string, host: string) {
    name == host || exists part :: "*." <= name && '.' !in part && host == part + name[1..]
  }

  lemma NameCoversIsMatch(name: string, host: string)
    ensures VerifiedServerNameMatches(name, host) <==> NameCovers(name, host)
  {
    hide VerifiedServerNameMatches;
    ServerNameMatchIsOneLabel(name, host);
    if name != host {
      if NameCovers(name, host) {
        var part :| "*." <= name && '.' !in part && host == part + name[1..];
        assert WildcardLabel(name, host, part);
      }
      if exists part :: WildcardLabel(name, host, part) {
        var part :| WildcardLabel(name, host, part);
        assert host == part + name[1..];
      }
    }
  }

  /**
   * What coalescing demands: HTTP/2 over HTTPS without a proxy on both sides, a request that is
   * not bound to HTTP/1, equal ports and different authorities, a certificate name that is the
   * request's host or covers it by one label, and the connection's target among the plan's.
   */
  lemma CoalescingIsExact(info: Info, request: Address, plan: seq<Route>)
    ensures CanCoalesce(info, request, plan) <==>
            && info.protocol == Http2
            && request.scheme == Https && request.proxy == None && request.protocolPolicy != Http1Only
            && info.route.address.scheme == Https && info.route.address.proxy == None
            && info.route.address.authority.port == request.authority.port
            && info.route.address.authority.host != request.authority.host
            && (exists i :: 0 <= i < |info.verifiedServerNames| && NameCovers(info.verifiedServerNames[i], request.authority.host))
            && (exists j :: 0 <= j < |plan| && plan[j].kind.Direct? && plan[j].kind == info.route.kind)
  {
    hide VerifiedServerNameMatches;
    forall i | 0 <= i < |info.verifiedServerNames|
      ensures VerifiedServerNameMatches(info.verifiedServerNames[i], request.authority.host)
              <==> NameCovers(info.verifiedServerNames[i], request.authority.host)
    {
      NameCoversIsMatch(info.verifiedServerNames[i], request.authority.host);
    }
    hide NameCovers;
  }

  /** The direct targets of a plan, in order and without repetition. */
  function DirectTargets(plan: seq<Route>): (t: seq<SocketAddr>)
    ensures forall x :: x in t <==> exists i :: 0 <= i < |plan| && plan[i].kind == Direct(x)
    ensures forall i, j :: 0 <= i < j < |t| ==> t[i] != t[j]
  {
    if plan == [] then []
    else
      var p := DirectTargets(plan[..|plan| - 1]);
      var k := plan[|plan| - 1].kind;
      if k.Direct? && k.target !in p then p + [k.target] else p
  }

  method DirectRouteTargets(plan: seq<Route>) returns (targets: seq<SocketAddr>)
    ensures targets == DirectTargets(plan)
  {
    targets := [];
    for i := 0 to |plan|
      invariant targets == DirectTargets(plan[..i])
    {
      assert plan[..i + 1][..i] == plan[..i];
      if plan[i].kind.Direct? && plan[i].kind.target !in targets {
        targets := targets + [plan[i].kind.target];
      }
    }
    assert plan[..|plan|] == plan;
  }

  /** The addresses that own a connection indexed under one of the targets. */
  ghost function OwnersOf(u: set<RealConnection>, targets: seq<SocketAddr>): set<Address> {
    set c | c in u && IndexTarget(c.info).Some? && IndexTarget(c.info).value in targets :: AddressOf(c)
  }

  method AddressesToPrune(coalesced: Coalesced, targets: seq<SocketAddr>, ghost u: set<RealConnection>) returns (addresses: set<Address>)
    requires TargetsIndexed(u, coalesced)
    ensures addresses == OwnersOf(u, targets)
  {
    addresses := {};
    for i := 0 to |targets|
      invariant addresses == OwnersOf(u, targets[..i])
    {
      var t := targets[i];
      var more: set<Address> := if t in coalesced then set c | c in coalesced[t] :: AddressOf(c) else {};
      assert targets[..i + 1] == targets[..i] + [t];
      assert more == OwnersOf(u, [t]);
      assert OwnersOf(u, targets[..i + 1]) == OwnersOf(u, targets[..i]) + OwnersOf(u, [t]);
      addresses := addresses + more;
    }
    assert targets[..|targets|] == targets;
  }

  /** Every connection that may be coalesced is indexed under one of the plan's direct targets. */
  lemma CandidatesAreIndexed(u: set<RealConnection>, coalesced: Coalesced, c: RealConnection, request: Address, plan: seq<Route>)
    requires TargetsIndexed(u, coalesced) && c in u && CanCoalesce(c.info, request, plan)
    ensures IndexTarget(c.info).Some? && IndexTarget(c.info).value in DirectTargets(plan)
    ensures IndexTarget(c.info).value in coalesced && c in coalesced[IndexTarget(c.info).value]
  {
  }

  /** Drops entries that are closed or filed under the wrong target; there are none. */
  method PruneCoalescingBucket(coalesced: Coalesced, target: SocketAddr, ghost u: set<RealConnection>) returns (coalesced': Coalesced)
    requires TargetsIndexed(u, coalesced) && forall c :: c in u ==> c.status.health != Closed
    ensures coalesced' == coalesced
  {
    if target !in coalesced {
      return coalesced;
    }
    var b, kept := coalesced[target], [];
    for i := 0 to |b|
      invariant kept == b[..i]
    {
      if IndexTarget(b[i].info) == Some(target) && b[i].status.health != Closed {
        kept := kept + [b[i]];
      }
    }
    assert kept == b;
    assert coalesced[target := b] == coalesced;
    coalesced' := if kept == [] then coalesced - {target} else coalesced[target := kept];
  }

  /** `b` lists, each once, the connections of `u` indexed under `targets` that the request may use. */
  ghost predicate Candidates(u: set<RealConnection>, targets: seq<SocketAddr>, request: Address, plan: seq<Route>, b: Bucket) {
    && DistinctIds(b)
    && (forall c :: c in b ==> c in u && CanCoalesce(c.info, request, plan))
    && (forall c :: c in u && IndexTarget(c.info).Some? && IndexTarget(c.info).value in targets && CanCoalesce(c.info, request, plan) ==> c in b)
  }

  /** The connections of `b` the request may use, in order. */
  function UsableOf(b: Bucket, request: Address, plan: seq<Route>): Bucket {
    if b == [] then []
    else
      var c := b[|b| - 1];
      UsableOf(b[..|b| - 1], request, plan) + if CanCoalesce(c.info, request, plan) then [c] else []
  }

  /** The usable connections, target by target in the order of the plan, each target's in the order indexed. */
  function CandidateList(coalesced: Coalesced, targets: seq<SocketAddr>, request: Address, plan: seq<Route>): Bucket {
    if targets == [] then []
    else
      var t := targets[|targets| - 1];
      CandidateList(coalesced, targets[..|targets| - 1], request, plan)
      + if t in coalesced then UsableOf(coalesced[t], request, plan) else []
  }

  /** After the first `i` targets: the candidates under them, and which ids were seen. */
  ghost predicate Collected(u: set<RealConnection>, targets: seq<SocketAddr>, request: Address, plan: seq<Route>, seen: set<nat>, found: Bucket) {
    && Candidates(u, targets, request, plan, found)
    && (forall c :: c in found ==> c.info.id in seen)
    && (forall c :: c in u && c.info.id in seen ==> IndexTarget(c.info).Some? && IndexTarget(c.info).value in targets)
  }

  /** Adds the usable connections of one index bucket that were not seen before. */
  method CollectBucket(bucket: Bucket, seen: set<nat>, found: Bucket, request: Address, plan: seq<Route>)
    returns (seen': set<nat>, found': Bucket)
    requires DistinctIds(bucket) && DistinctIds(found)
    requires forall c :: c in bucket ==> c.info.id !in seen
    requires forall c :: c in found ==> c.info.id in seen
    ensures DistinctIds(found') && (forall c :: c in found' ==> c.info.id in seen')
    ensures forall x :: x in seen' ==> x in seen || exists c :: c in bucket && c.info.id == x
    ensures forall c :: c in found ==> c in found'
    ensures forall c :: c in found' ==> c in found || (c in bucket && CanCoalesce(c.info, request, plan))
    ensures forall c :: c in bucket && CanCoalesce(c.info, request, plan) ==> c in found'
    ensures found' == found + UsableOf(bucket, request, plan)
  {
    hide CanCoalesce;
    seen', found' := seen, found;
    assert found + UsableOf(bucket[..0], request, plan) == found;
    for i := 0 to |bucket|
      invariant found' == found + UsableOf(bucket[..i], request, plan)
      invariant DistinctIds(found') && (forall c :: c in found' ==> c.info.id in seen')
      invariant forall x :: x in seen' ==> x in seen || exists j :: 0 <= j < i && bucket[j].info.id == x
      invariant forall c :: c in found ==> c in found'
      invariant forall c :: c in found' ==> c in found || (c in bucket && CanCoalesce(c.info, request, plan))
      invariant forall j :: 0 <= j < i && CanCoalesce(bucket[j].info, request, plan) ==> bucket[j] in found'
    {
      assert bucket[i] in bucket;
      assert bucket[..i + 1][..i] == bucket[..i];
      assert bucket[i].info.id !in seen';
      if bucket[i].info.id !in seen' {
        seen' := seen' + {bucket[i].info.id};
        if CanCoalesce(bucket[i].info, request, plan) {
          found' := found' + [bucket[i]];
        }
      }
    }
    assert bucket[..|bucket|] == bucket;
  }

  lemma NoTargets(coalesced: Coalesced, request: Address, plan: seq<Route>)
    ensures CandidateList(coalesced, [], request, plan) == []
  {
  }

  lemma CandidateListSnoc(coalesced: Coalesced, targets: seq<SocketAddr>, i: nat, request: Address, plan: seq<Route>)
    requires i < |targets|
    ensures CandidateList(coalesced, targets[..i + 1], request, plan) ==
            CandidateList(coalesced, targets[..i], request, plan)
            + if targets[i] in coalesced then UsableOf(coalesced[targets[i]], request, plan) else []
  {
    assert targets[..i + 1][..i] == targets[..i];
  }

  /** The candidates of all targets, by the index alone. */
  method CollectCandidates(coalesced: Coalesced, targets: seq<SocketAddr>, request: Address, plan: seq<Route>, ghost u: set<RealConnection>)
    returns (coalesced': Coalesced, found: Bucket)
    requires TargetsIndexed(u, coalesced) && forall c, d :: c in u && d in u && c.info.id == d.info.id ==> c == d
    requires forall c :: c in u ==> c.status.health != Closed
    requires forall i, j :: 0 <= i < j < |targets| ==> targets[i] != targets[j]
    ensures coalesced' == coalesced && Candidates(u, targets, request, plan, found)
    ensures found == CandidateList(coalesced, targets, request, plan)
  {
    hide CanCoalesce, UsableOf, CandidateList;
    coalesced', found := coalesced, [];
    var seen: set<nat> := {};
    NoTargets(coalesced, request, plan);
    assert targets[..0] == [];
    for i := 0 to |targets|
      invariant coalesced' == coalesced && Collected(u, targets[..i], request, plan, seen, found)
      invariant found == CandidateList(coalesced, targets[..i], request, plan)
    {
      var t := targets[i];
      CandidateListSnoc(coalesced, targets, i, request, plan);
      assert targets[..i + 1] == targets[..i] + [t];
      assert t !in targets[..i];
      coalesced' := PruneCoalescingBucket(coalesced', t, u);
      if t in coalesced' {
        seen, found := CollectBucket(coalesced'[t], seen, found, request, plan);
      }
    }
    assert targets[..|targets|] == targets;
  }
}
