/** The connection pool's operations over its buckets and indexes. */
module ConnectionPools {
  import opened Wrappers
  import opened Planning
  import opened Connections
  import opened Pool
  import opened PoolIndex

  function Taken(s: Status): Status {
    s.(allocations := s.allocations + 1, idleSince := None)
  }

  /** No connection in front of `c` can take a stream. */
  ghost predicate FirstAble(b: Bucket, c: RealConnection)
    reads b
  {
    exists i :: 0 <= i < |b| && b[i] == c && forall j :: 0 <= j < i ==> !CanAcquire(b[j].info, b[j].status)
  }

  /** Tries the connections in order and stops at the first that takes one more stream. */
  method FirstAcquire(b: Bucket) returns (i: nat)
    requires AllSane(b) && DistinctIds(b)
    modifies Members(b)
    ensures AllSane(b) && i <= |b|
    ensures forall j :: 0 <= j < i ==> !CanAcquire(b[j].info, old(b[j].status))
    ensures i < |b| ==> CanAcquire(b[i].info, old(b[i].status)) && b[i].status == Taken(old(b[i].status))
    ensures forall c :: c in b && (i == |b| || c != b[i]) ==> c.status == old(c.status)
    ensures i < |b| ==> FirstAble(b, b[i])
  {
    i := 0;
    while i < |b|
      invariant i <= |b| && AllSane(b)
      invariant forall j :: 0 <= j < i ==> !CanAcquire(b[j].info, old(b[j].status))
      invariant forall c :: c in b ==> c.status == old(c.status)
    {
      var ok := b[i].TryAcquire();
      if ok {
        return;
      }
      i := i + 1;
    }
  }

  lemma {:induction false} KeepOthers(b: Bucket, c: RealConnection)
    requires c !in b
    ensures Keep(b, {c}) == b
  {
    if b == [] {
    } else {
      KeepOthers(b[..|b| - 1], c);
    }
  }

  lemma {:induction false} KeepAllBut(b: Bucket, i: nat)
    requires DistinctIds(b) && i < |b|
    ensures Keep(b, {b[i]}) == b[..i] + b[i + 1..]
  {
    var n := |b| - 1;
    if i == n {
      KeepOthers(b[..n], b[n]);
    } else {
      KeepAllBut(b[..n], i);
      assert b[..n][..i] + b[..n][i + 1..] + [b[n]] == b[..i] + b[i + 1..];
    }
  }

  lemma TakeOut(b: Bucket, i: nat)
    requires DistinctIds(b) && i < |b|
    ensures var rest := b[..i] + b[i + 1..];
            && rest == Keep(b, {b[i]}) && DistinctIds(rest)
            && (forall c :: c in rest ==> c in b && c != b[i])
            && (forall c :: c in b && c != b[i] ==> c in rest)
  {
    KeepDistinct(b, {b[i]});
    KeepMembers(b, {b[i]});
    KeepAllBut(b, i);
  }

  method Position(b: Bucket, id: nat) returns (i: nat)
    requires exists c :: c in b && c.info.id == id
    ensures i < |b| && b[i].info.id == id
  {
    i := 0;
    while b[i].info.id != id
      invariant i < |b| && forall j :: 0 <= j < i ==> b[j].info.id != id
      decreases |b| - i
    {
      i := i + 1;
    }
  }

  class ConnectionPool {
    const settings: Settings
    var buckets: Buckets
    var byId: ById
    var coalesced: Coalesced

    ghost predicate AllSound()
      reads this, Pooled(buckets)
    {
      forall c :: c in Pooled(buckets) ==> Sane(c.info, c.status)
    }

    ghost predicate AllOpen()
      reads this, Pooled(buckets)
    {
      forall c :: c in Pooled(buckets) ==> Sane(c.info, c.status) && c.status.health != Closed
    }

    /** Both indexes agree with the buckets, and no pooled connection is closed. */
    ghost predicate Valid()
      reads this, Pooled(buckets)
    {
      WellFormed(buckets) && Indexes(Pooled(buckets), byId, coalesced) && AllOpen()
    }

    /**
     * What a valid pool is, by its maps alone: both indexes list exactly the pooled connections,
     * the second only the direct HTTPS HTTP/2 ones; buckets are not empty and hold their own; ids
     * are unique; nothing pooled is closed or carries more streams than its protocol allows.
     */
    lemma ValidMeans(c: RealConnection, id: nat, target: SocketAddr)
      requires Valid()
      ensures c in Pooled(buckets) <==> AddressOf(c) in buckets && c in buckets[AddressOf(c)]
      ensures c in Pooled(buckets) ==> c.info.id in byId && byId[c.info.id] == AddressOf(c)
      ensures id in byId ==> exists d :: d in Pooled(buckets) && d.info.id == id
      ensures forall d :: d in Pooled(buckets) && c in Pooled(buckets) && d.info.id == c.info.id ==> d == c
      ensures (target in coalesced && c in coalesced[target]) <==>
              && c in Pooled(buckets) && c.info.protocol == Http2 && AddressOf(c).scheme == Https && AddressOf(c).proxy == None
              && c.info.route.kind == Direct(target)
      ensures target in coalesced ==> coalesced[target] != []
      ensures forall a :: a in buckets ==> buckets[a] != []
      ensures c in Pooled(buckets) ==> c.status.health != Closed && (c.info.protocol == Http1 ==> c.status.allocations <= 1)
      ensures c in Pooled(buckets) && c.info.protocol == Http2 ==> c.status.allocations <= 1 || c.status.allocations <= c.info.maxHttp2Streams
    {
      PooledAt(buckets, AddressOf(c), c);
    }

    constructor (settings: Settings)
      ensures Valid() && Pooled(buckets) == {} && this.settings == settings
    {
      this.settings := settings;
      buckets, byId, coalesced := map[], map[], map[];
    }

    // ----------------------------------------------------------------------- pruning

    lemma PrunedFacts(settings: Settings, now: nat, b: Bucket, before: seq<Status>, kept: Bucket, removed: Bucket)
      requires Pruned(settings, now, b, before, kept, removed)
      ensures Within(removed, b) && DistinctIds(removed) && DistinctIds(kept) && Prunes(settings, now, b, before, kept)
      ensures forall c :: c in kept ==> c in b && c !in removed && c.status.health != Closed
      ensures forall c :: c in b && c !in removed ==> c in kept
      ensures |before| == |b|
      ensures forall i :: 0 <= i < |b| ==>
                if b[i] in removed then !InUse(before[i]) && b[i].status.health == Closed else b[i].status == before[i]
    {
      KeepMembers(b, Members(removed));
      hide Keep, GoesBeforeKept, IdleWere;
    }

    lemma PruneNothing(settings: Settings, now: nat)
      ensures Prunes(settings, now, [], [], [])
    {
      assert IdleWere([], [], []) == {};
    }

    /** Prunes one bucket. The indexes still know what was removed. */
    method PruneAddress(address: Address, now: nat) returns (removed: Bucket)
      requires WellFormed(buckets) && AllSound()
      modifies this`buckets, Members(BucketAt(buckets, address))
      ensures WellFormed(buckets) && AllSound()
      ensures Pooled(buckets) == old(Pooled(buckets)) - Members(removed)
      ensures Within(removed, old(BucketAt(buckets, address))) && DistinctIds(removed)
      ensures forall a :: a != address ==> BucketAt(buckets, a) == old(BucketAt(buckets, a))
      ensures forall c :: c in old(Pooled(buckets)) ==>
                if c in removed then !InUse(old(c.status)) && c.status.health == Closed else c.status == old(c.status)
      ensures forall c :: c in BucketAt(buckets, address) ==> c.status.health != Closed
      ensures Prunes(settings, now, old(BucketAt(buckets, address)), old(Statuses(BucketAt(buckets, address))),
                     BucketAt(buckets, address))
    {
      hide Pruned, Statuses, Prunes;
      ghost var buckets0 := buckets;
      if address !in buckets {
        PruneNothing(settings, now);
        return [];
      }
      var b := buckets[address];
      ghost var before := Statuses(b);
      assert forall c :: c in b ==> c in Pooled(buckets);
      var kept;
      kept, removed := PruneConnections(settings, now, b);
      PrunedFacts(settings, now, b, before, kept, removed);
      if kept == [] {
        buckets := buckets - {address};
      } else {
        buckets := buckets[address := kept];
      }
      PooledShrinks(buckets0, buckets, address, Members(removed));
      forall c | c in Pooled(buckets0)
        ensures if c in removed then !InUse(old(c.status)) && c.status.health == Closed else c.status == old(c.status)
      {
        if c in b {
          var i :| 0 <= i < |b| && b[i] == c;
        }
      }
    }

    /** What `address` holds, as seen from the whole pool. */
    lemma OpenBucket(address: Address)
      requires WellFormed(buckets) && AllSound()
      ensures var b := BucketAt(buckets, address);
              && AllSane(b) && DistinctIds(b) && Members(b) <= Pooled(buckets)
              && (forall c :: c in b ==> AddressOf(c) == address && c in Pooled(buckets))
              && forall c :: c in Pooled(buckets) && AddressOf(c) == address ==> c in b
    {
      forall c | c in Pooled(buckets) && AddressOf(c) == address ensures c in BucketAt(buckets, address) {
        PooledAt(buckets, address, c);
      }
    }

    lemma NoneDistinct()
      ensures DistinctIds([])
    {
    }

    lemma JoinDistinct(b: Bucket, more: Bucket, u: set<RealConnection>)
      requires DistinctIds(b) && DistinctIds(more) && Members(b) <= u && Members(more) <= u && Members(b) !! Members(more)
      requires forall c, d :: c in u && d in u && c.info.id == d.info.id ==> c == d
      ensures DistinctIds(b + more) && Members(b + more) == Members(b) + Members(more)
    {
      forall i, j | 0 <= i < |b| && 0 <= j < |more| ensures b[i].info.id != more[j].info.id {
        assert b[i] in Members(b) && more[j] in Members(more);
      }
    }

    /** Prunes the buckets of several addresses, one after the other. */
    method PruneAddresses(addresses: set<Address>, now: nat) returns (removed: Bucket)
      requires WellFormed(buckets) && AllOpen()
      requires forall c, d :: c in Pooled(buckets) && d in Pooled(buckets) && c.info.id == d.info.id ==> c == d
      modifies this`buckets, Pooled(buckets)
      ensures WellFormed(buckets) && AllOpen() && DistinctIds(removed)
      ensures Members(removed) <= old(Pooled(buckets)) && Pooled(buckets) == old(Pooled(buckets)) - Members(removed)
      ensures forall c :: c in old(Pooled(buckets)) ==>
                if c in removed then !InUse(old(c.status)) && c.status.health == Closed else c.status == old(c.status)
      ensures forall a :: a in addresses ==>
                Prunes(settings, now, old(BucketAt(buckets, a)), old(Statuses(BucketAt(buckets, a))), BucketAt(buckets, a))
      ensures forall a :: a !in addresses ==> BucketAt(buckets, a) == old(BucketAt(buckets, a))
    {
      hide Prunes, Statuses, WellFormed, DistinctIds;
      NoneDistinct();
      removed := [];
      var rest := addresses;
      while rest != {}
        invariant rest <= addresses && WellFormed(buckets) && AllOpen() && DistinctIds(removed)
        invariant Members(removed) <= old(Pooled(buckets)) && Pooled(buckets) == old(Pooled(buckets)) - Members(removed)
        invariant forall c :: c in old(Pooled(buckets)) ==>
                    if c in removed then !InUse(old(c.status)) && c.status.health == Closed else c.status == old(c.status)
        invariant forall a :: a in addresses - rest ==>
                    Prunes(settings, now, old(BucketAt(buckets, a)), old(Statuses(BucketAt(buckets, a))), BucketAt(buckets, a))
        invariant forall a :: a !in addresses - rest ==> BucketAt(buckets, a) == old(BucketAt(buckets, a))
      {
        var address :| address in rest;
        OpenBucket(address);
        assert Statuses(BucketAt(buckets, address)) == old(Statuses(BucketAt(buckets, address)));
        ghost var p := Pooled(buckets);
        var more := PruneAddress(address, now);
        assert Members(more) <= p;
        JoinDistinct(removed, more, old(Pooled(buckets)));
        removed := removed + more;
        rest := rest - {address};
      }
    }

    lemma NextOut(u: set<RealConnection>, removed: Bucket, i: nat)
      requires Members(removed) <= u && DistinctIds(removed) && i < |removed|
      ensures removed[i] in u - Members(removed[..i])
      ensures u - Members(removed[..i + 1]) == (u - Members(removed[..i])) - {removed[i]}
    {
      assert removed[..i + 1] == removed[..i] + [removed[i]];
      assert removed[i] in Members(removed);
    }

    /** Takes removed connections out of both indexes. */
    method FinishRemovals(removed: Bucket, ghost u: set<RealConnection>)
      requires Indexes(u, byId, coalesced) && Members(removed) <= u && DistinctIds(removed)
      modifies this`byId, this`coalesced
      ensures Indexes(u - Members(removed), byId, coalesced)
    {
      hide TargetsIndexed, RemoveIndex;
      assert forall c, d :: c in u && d in u && c.info.id == d.info.id ==> c == d;
      assert u - Members(removed[..0]) == u;
      for i := 0 to |removed|
        invariant IdsIndexed(u - Members(removed[..i]), byId) && TargetsIndexed(u, coalesced)
      {
        NextOut(u, removed, i);
        RemoveKeepsIds(u - Members(removed[..i]), byId, removed[i]);
        byId := byId - {removed[i].info.id};
      }
      assert removed[..|removed|] == removed;
      for i := 0 to |removed|
        invariant IdsIndexed(u - Members(removed), byId) && TargetsIndexed(u - Members(removed[..i]), coalesced)
      {
        NextOut(u, removed, i);
        RemoveKeepsTargets(u - Members(removed[..i]), coalesced, removed[i]);
        coalesced := RemoveIndex(coalesced, removed[i].info);
      }
    }

    /** Prunes several addresses and brings the indexes up to date. */
    method PruneIndexed(addresses: set<Address>, now: nat)
      requires Valid()
      modifies this`buckets, this`byId, this`coalesced, Pooled(buckets)
      ensures Valid() && Pooled(buckets) <= old(Pooled(buckets))
      ensures forall c :: c in old(Pooled(buckets)) ==>
                if c in Pooled(buckets) then c.status == old(c.status) else c.status.health == Closed
      ensures forall a :: a in addresses ==>
                Prunes(settings, now, old(BucketAt(buckets, a)), old(Statuses(BucketAt(buckets, a))), BucketAt(buckets, a))
      ensures forall a :: a !in addresses ==> BucketAt(buckets, a) == old(BucketAt(buckets, a))
    {
      hide Prunes, Statuses, TargetsIndexed, WellFormed;
      ghost var u := Pooled(buckets);
      var removed := PruneAddresses(addresses, now);
      FinishRemovals(removed, u);
    }

    method PruneAll(now: nat)
      requires Valid()
      modifies this`buckets, this`byId, this`coalesced, Pooled(buckets)
      ensures Valid() && Pooled(buckets) <= old(Pooled(buckets))
      ensures forall c :: c in old(Pooled(buckets)) ==>
                if c in Pooled(buckets) then c.status == old(c.status) else c.status.health == Closed
      ensures forall a :: a in old(buckets) ==>
                Prunes(settings, now, old(BucketAt(buckets, a)), old(Statuses(BucketAt(buckets, a))), BucketAt(buckets, a))
    {
      hide Prunes, Statuses, Valid;
      PruneIndexed(buckets.Keys, now);
    }

    // ------------------------------------------------------------------- checking out

    /** Checks out the first of some pooled connections that can take a stream. */
    method TakeFirstOf(b: Bucket) returns (r: RealConnection?)
      requires AllOpen() && DistinctIds(b) && forall c :: c in b ==> c in Pooled(buckets)
      modifies Pooled(buckets)
      ensures AllOpen()
      ensures r != null ==> r in b && CanAcquire(r.info, old(r.status)) && r.status == Taken(old(r.status)) && FirstAble(b, r)
      ensures r == null ==> forall c :: c in b ==> !CanAcquire(c.info, c.status)
      ensures forall c :: c in Pooled(buckets) && c != r ==> c.status == old(c.status)
    {
      hide DistinctIds, FirstAble;
      assert Members(b) <= Pooled(buckets);
      var i := FirstAcquire(b);
      r := if i < |b| then b[i] else null;
      assert forall c :: c in Pooled(buckets) && c != r ==> c.status == old(c.status);
    }

    /** Checks out the first connection of the address that can take a stream, after pruning. */
    method Acquire(address: Address, now: nat) returns (r: RealConnection?)
      requires Valid()
      modifies this`buckets, this`byId, this`coalesced, Pooled(buckets)
      ensures Valid() && Pooled(buckets) <= old(Pooled(buckets))
      ensures r != null ==> r in Pooled(buckets) && AddressOf(r) == address
      ensures r != null ==> CanAcquire(r.info, old(r.status)) && r.status == Taken(old(r.status))
      ensures r == null ==> forall c :: c in Pooled(buckets) && AddressOf(c) == address ==> !CanAcquire(c.info, c.status)
      ensures r != null ==> FirstAble(BucketAt(buckets, address), r)
      ensures forall c :: c in old(Pooled(buckets)) && c != r ==>
                if c in Pooled(buckets) then c.status == old(c.status) else c.status.health == Closed
      ensures forall a :: a != address ==> BucketAt(buckets, a) == old(BucketAt(buckets, a))
      ensures Prunes(settings, now, old(BucketAt(buckets, address)), old(Statuses(BucketAt(buckets, address))),
                     BucketAt(buckets, address))
    {
      hide Prunes, Statuses, IdsIndexed, TargetsIndexed, WellFormed, DistinctIds, FirstAble, Taken;
      ghost var u := Pooled(buckets);
      OpenBucket(address);
      var removed := PruneAddress(address, now);
      OpenBucket(address);
      assert forall c :: c in Pooled(buckets) ==> c.status == old(c.status);
      r := TakeFirstOf(BucketAt(buckets, address));
      FinishRemovals(removed, u);
    }

    /** The addresses pruned for a coalesced checkout. */
    ghost function CandidateAddresses(request: Address, plan: seq<Route>): set<Address>
      reads this
    {
      if RequestAllowsCoalescing(request) then OwnersOf(Pooled(buckets), DirectTargets(plan)) else {}
    }

    /** Just the addresses with a connection that could be looked at are pruned. */
    lemma CandidateAddressesAre(request: Address, plan: seq<Route>, a: Address)
      requires Valid()
      ensures a in CandidateAddresses(request, plan) <==>
              && request.scheme == Https && request.proxy == None && request.protocolPolicy != Http1Only
              && exists c :: c in Pooled(buckets) && AddressOf(c) == a && a.scheme == Https && a.proxy == None && c.info.protocol == Http2
                   && c.info.route.kind.Direct? && exists j :: 0 <= j < |plan| && plan[j].kind == c.info.route.kind
    {
      hide Valid, Pooled;
    }

    method Owners(targets: seq<SocketAddr>) returns (addresses: set<Address>)
      requires Valid()
      ensures addresses == OwnersOf(Pooled(buckets), targets)
    {
      addresses := AddressesToPrune(coalesced, targets, Pooled(buckets));
    }

    /** Looks the candidates up in the index and checks out the first that takes a stream. */
    method TakeCandidate(targets: seq<SocketAddr>, request: Address, plan: seq<Route>) returns (r: RealConnection?)
      requires Valid() && targets == DirectTargets(plan)
      modifies this`coalesced, Pooled(buckets)
      ensures Valid()
      ensures r != null ==> r in Pooled(buckets) && CanCoalesce(r.info, request, plan)
      ensures r != null ==> CanAcquire(r.info, old(r.status)) && r.status == Taken(old(r.status))
      ensures r == null ==> forall c :: c in Pooled(buckets) && CanCoalesce(c.info, request, plan) ==> !CanAcquire(c.info, c.status)
      ensures r != null ==> FirstAble(CandidateList(coalesced, DirectTargets(plan), request, plan), r)
      ensures forall c :: c in Pooled(buckets) && c != r ==> c.status == old(c.status)
    {
      hide TargetsIndexed, WellFormed, DistinctIds, CanCoalesce, CandidateList, FirstAble, Taken;
      ghost var p := Pooled(buckets);
      var found;
      coalesced, found := CollectCandidates(coalesced, targets, request, plan, p);
      forall c | c in p && CanCoalesce(c.info, request, plan) ensures c in found {
        CandidatesAreIndexed(p, coalesced, c, request, plan);
      }
      r := TakeFirstOf(found);
    }

    /** Without permission or without direct targets there is nothing to look at. */
    lemma CandidatesOf(request: Address, plan: seq<Route>)
      ensures !RequestAllowsCoalescing(request) ==> CandidateAddresses(request, plan) == {}
      ensures RequestAllowsCoalescing(request) ==> CandidateAddresses(request, plan) == OwnersOf(Pooled(buckets), DirectTargets(plan))
      ensures DirectTargets(plan) == [] ==> OwnersOf(Pooled(buckets), DirectTargets(plan)) == {}
      ensures !RequestAllowsCoalescing(request) || DirectTargets(plan) == [] ==>
                forall c :: c in Pooled(buckets) ==> !CanCoalesce(c.info, request, plan)
    {
    }

    /**
     * Checks out a connection of another authority: fails only if, after pruning, no pooled
     * connection may be coalesced and take a stream.
     */
    method AcquireCoalesced(request: Address, plan: seq<Route>, now: nat) returns (r: RealConnection?)
      requires Valid()
      modifies this`buckets, this`byId, this`coalesced, Pooled(buckets)
      ensures Valid() && Pooled(buckets) <= old(Pooled(buckets))
      ensures r != null ==> r in Pooled(buckets) && CanCoalesce(r.info, request, plan)
      ensures r != null ==> CanAcquire(r.info, old(r.status)) && r.status == Taken(old(r.status))
      ensures r == null ==> forall c :: c in Pooled(buckets) && CanCoalesce(c.info, request, plan) ==> !CanAcquire(c.info, c.status)
      ensures r != null ==> FirstAble(CandidateList(coalesced, DirectTargets(plan), request, plan), r)
      ensures r != null ==>
                && r.info.protocol == Http2
                && request.scheme == Https && request.proxy == None && request.protocolPolicy != Http1Only
                && AddressOf(r).scheme == Https && AddressOf(r).proxy == None
                && AddressOf(r).authority.port == request.authority.port && AddressOf(r).authority.host != request.authority.host
                && (exists i :: 0 <= i < |r.info.verifiedServerNames| && NameCovers(r.info.verifiedServerNames[i], request.authority.host))
                && (exists j :: 0 <= j < |plan| && plan[j].kind.Direct? && plan[j].kind == r.info.route.kind)
      ensures r == null && request.scheme == Https && request.proxy == None && request.protocolPolicy != Http1Only ==>
                forall c :: c in Pooled(buckets)
                  && c.info.protocol == Http2 && AddressOf(c).scheme == Https && AddressOf(c).proxy == None
                  && AddressOf(c).authority.port == request.authority.port && AddressOf(c).authority.host != request.authority.host
                  && (exists i :: 0 <= i < |c.info.verifiedServerNames| && NameCovers(c.info.verifiedServerNames[i], request.authority.host))
                  && (exists j :: 0 <= j < |plan| && plan[j].kind.Direct? && plan[j].kind == c.info.route.kind)
                  ==> !CanAcquire(c.info, c.status)
      ensures forall c :: c in old(Pooled(buckets)) && c != r ==>
                if c in Pooled(buckets) then c.status == old(c.status) else c.status.health == Closed
      ensures forall a :: a in old(CandidateAddresses(request, plan)) ==>
                Prunes(settings, now, old(BucketAt(buckets, a)), old(Statuses(BucketAt(buckets, a))), BucketAt(buckets, a))
      ensures forall a :: a !in old(CandidateAddresses(request, plan)) ==> BucketAt(buckets, a) == old(BucketAt(buckets, a))
    {
      hide Prunes, Statuses, CanCoalesce, CandidateAddresses, OwnersOf, Valid, Taken, FirstAble, CandidateList, NameCovers, RequestAllowsCoalescing;
      CandidatesOf(request, plan);
      forall c | c in Pooled(buckets)
        ensures CanCoalesce(c.info, request, plan) <==>
                && c.info.protocol == Http2
                && request.scheme == Https && request.proxy == None && request.protocolPolicy != Http1Only
                && AddressOf(c).scheme == Https && AddressOf(c).proxy == None
                && AddressOf(c).authority.port == request.authority.port && AddressOf(c).authority.host != request.authority.host
                && (exists i :: 0 <= i < |c.info.verifiedServerNames| && NameCovers(c.info.verifiedServerNames[i], request.authority.host))
                && (exists j :: 0 <= j < |plan| && plan[j].kind.Direct? && plan[j].kind == c.info.route.kind)
      {
        CoalescingIsExact(c.info, request, plan);
      }
      if !RequestAllowsCoalescing(request) {
        return null;
      }
      var targets := DirectRouteTargets(plan);
      if targets == [] {
        return null;
      }
      var addresses := Owners(targets);
      PruneIndexed(addresses, now);
      assert forall c :: c in Pooled(buckets) ==> c.status == old(c.status);
      r := TakeCandidate(targets, request, plan);
    }

    // -------------------------------------------------------------- putting in and out

    lemma FreshId(c: RealConnection)
      requires IdsIndexed(Pooled(buckets), byId) && c.info.id !in byId
      ensures forall d :: d in Pooled(buckets) ==> d.info.id != c.info.id
    {
    }

    method Insert(c: RealConnection, now: nat)
      requires Valid() && Sane(c.info, c.status) && c.info.id !in byId
      modifies this`buckets, this`byId, this`coalesced, Pooled(buckets), c
      ensures Valid() && Pooled(buckets) <= old(Pooled(buckets)) + {c}
      ensures forall d :: d in old(Pooled(buckets)) + {c} ==>
                if d in Pooled(buckets) then d.status == old(d.status) else d.status.health == Closed
      ensures forall a :: a != AddressOf(c) ==> BucketAt(buckets, a) == old(BucketAt(buckets, a))
      ensures Prunes(settings, now, old(BucketAt(buckets, AddressOf(c))) + [c], old(Statuses(BucketAt(buckets, AddressOf(c)))) + [old(c.status)],
                     BucketAt(buckets, AddressOf(c)))
    {
      hide Prunes, Statuses, IdsIndexed, TargetsIndexed, WellFormed, AddIndex, DistinctIds;
      var address := AddressOf(c);
      ghost var u, b := Pooled(buckets), BucketAt(buckets, address);
      FreshId(c);
      PooledGrows(buckets, c);
      buckets := buckets[address := BucketAt(buckets, address) + [c]];
      assert Statuses(b + [c]) == Statuses(b) + [c.status];
      var removed := PruneAddress(address, now);
      OpenBucket(address);
      AddKeepsIds(u, byId, c);
      AddKeepsTargets(u, coalesced, c);
      byId := byId[c.info.id := address];
      coalesced := AddIndex(coalesced, c);
      FinishRemovals(removed, u + {c});
    }

    /** Statuses of `b` after `c` gives back one stream. */
    static ghost function GivenBack(b: Bucket, before: seq<Status>, c: RealConnection, now: nat): (s: seq<Status>)
      requires |before| == |b| && forall i :: 0 <= i < |b| && b[i] == c ==> InUse(before[i])
      ensures |s| == |b| && forall i :: 0 <= i < |b| ==> s[i] == if b[i] == c then Released(before[i], now) else before[i]
    {
      seq(|b|, i requires 0 <= i < |b| => if b[i] == c then Released(before[i], now) else before[i])
    }

    lemma LastReleaseRemoves(settings: Settings, now: nat, b: Bucket, before: seq<Status>, kept: Bucket, c: RealConnection)
      requires Prunes(settings, now, b, before, kept) && c in b
      ensures exists i :: 0 <= i < |b| && b[i] == c && (before[i].health == Unhealthy ==> (c in kept <==> before[i].allocations > 0))
    {
      var i :| 0 <= i < |b| && b[i] == c;
    }

    /** Gives back one stream of a connection, pooled or not, and prunes its address. */
    method Release(c: RealConnection, now: nat) returns (ok: bool)
      requires Valid() && Sane(c.info, c.status)
      modifies this`buckets, this`byId, this`coalesced, Pooled(buckets), c
      ensures Valid() && Pooled(buckets) <= old(Pooled(buckets))
      ensures ok == old(InUse(c.status))
      ensures !ok ==> buckets == old(buckets) && c.status == old(c.status)
      ensures ok ==> Prunes(settings, now, old(BucketAt(buckets, AddressOf(c))),
                            GivenBack(old(BucketAt(buckets, AddressOf(c))), old(Statuses(BucketAt(buckets, AddressOf(c)))), c, now),
                            BucketAt(buckets, AddressOf(c)))
      ensures ok && (c in old(Pooled(buckets)) ==> c in Pooled(buckets)) ==> c.status == Released(old(c.status), now)
      ensures forall d :: d in old(Pooled(buckets)) && d != c ==>
                if d in Pooled(buckets) then d.status == old(d.status) else d.status.health == Closed
      ensures c in old(Pooled(buckets)) && c !in Pooled(buckets) ==> c.status.health == Closed
      ensures forall a :: a != AddressOf(c) ==> BucketAt(buckets, a) == old(BucketAt(buckets, a))
      // An unhealthy connection outlives every release but the last, which removes it.
      ensures ok && c in old(Pooled(buckets)) && old(c.status.health) == Unhealthy ==>
                (c in Pooled(buckets) <==> old(c.status.allocations) > 1)
    {
      hide Prunes, Statuses, IdsIndexed, TargetsIndexed, WellFormed, DistinctIds;
      ghost var u := Pooled(buckets);
      ok := c.Release(now);
      if !ok {
        return;
      }
      var address := AddressOf(c);
      OpenBucket(address);
      ghost var b := BucketAt(buckets, address);
      assert Statuses(b) == GivenBack(b, old(Statuses(BucketAt(buckets, AddressOf(c)))), c, now);
      ghost var before := Statuses(b);
      var removed := PruneAddress(address, now);
      if c in b {
        LastReleaseRemoves(settings, now, b, before, BucketAt(buckets, address), c);
      }
      OpenBucket(address);
      FinishRemovals(removed, u);
    }

    method Unindex(c: RealConnection, ghost u: set<RealConnection>)
      requires Indexes(u, byId, coalesced) && c in u
      modifies this`byId, this`coalesced
      ensures Indexes(u - {c}, byId, coalesced)
    {
      hide TargetsIndexed, RemoveIndex;
      RemoveKeepsIds(u, byId, c);
      RemoveKeepsTargets(u, coalesced, c);
      byId := byId - {c.info.id};
      coalesced := RemoveIndex(coalesced, c.info);
    }

    lemma FoundById(id: nat)
      requires Valid() && id in byId
      ensures byId[id] in buckets && exists c :: c in buckets[byId[id]] && c.info.id == id
    {
      var c :| c in Pooled(buckets) && c.info.id == id;
      PooledAt(buckets, byId[id], c);
    }

    /** Closes the connection with the given id and drops it from its bucket. */
    method TakeFromBucket(address: Address, id: nat) returns (r: RealConnection)
      requires WellFormed(buckets) && AllOpen()
      requires address in buckets && exists c :: c in buckets[address] && c.info.id == id
      modifies this`buckets, Pooled(buckets)
      ensures WellFormed(buckets) && AllOpen()
      ensures r in old(Pooled(buckets)) && AddressOf(r) == address && r.info.id == id && r.status == Shut(old(r.status))
      ensures Pooled(buckets) == old(Pooled(buckets)) - {r}
      ensures BucketAt(buckets, address) == Keep(old(BucketAt(buckets, address)), {r})
      ensures forall a :: a != address ==> BucketAt(buckets, a) == old(BucketAt(buckets, a))
      ensures forall c :: c in old(Pooled(buckets)) && c != r ==> c.status == old(c.status)
    {
      hide Keep;
      ghost var buckets0 := buckets;
      var b := buckets[address];
      var i := Position(b, id);
      r := b[i];
      PooledAt(buckets, address, r);
      TakeOut(b, i);
      r.Close();
      var rest := b[..i] + b[i + 1..];
      if rest == [] {
        buckets := buckets - {address};
      } else {
        buckets := buckets[address := rest];
      }
      PooledShrinks(buckets0, buckets, address, {r});
    }

    /** Takes one connection out by its id, whatever its state. */
    method Remove(id: nat) returns (r: RealConnection?)
      requires Valid()
      modifies this`buckets, this`byId, this`coalesced, Pooled(buckets)
      ensures Valid()
      ensures r == null <==> id !in old(byId)
      ensures r == null ==> buckets == old(buckets)
      ensures r != null ==> r in old(Pooled(buckets)) && r.info.id == id && r.status == Shut(old(r.status))
      ensures r != null ==> Pooled(buckets) == old(Pooled(buckets)) - {r}
      ensures r != null ==> BucketAt(buckets, AddressOf(r)) == Keep(old(BucketAt(buckets, AddressOf(r))), {r})
      ensures forall a :: r != null && a != AddressOf(r) ==> BucketAt(buckets, a) == old(BucketAt(buckets, a))
      ensures forall c :: c in old(Pooled(buckets)) && c != r ==> c.status == old(c.status)
    {
      if id !in byId {
        return null;
      }
      hide Indexes, Keep, WellFormed, AllOpen;
      var address := byId[id];
      FoundById(id);
      r := TakeFromBucket(address, id);
      Unindex(r, old(Pooled(buckets)));
    }
  }
}
