/** The order in which resolved addresses are raced: families alternate, IPv6 first. */
module RouteOrder {
  import opened Planning

  /** The addresses of one family, in order. */
  function OfFamily(addrs: seq<SocketAddr>, f: RouteFamily): seq<SocketAddr> {
    if addrs == [] then []
    else if addrs[0].family == f then [addrs[0]] + OfFamily(addrs[1..], f)
    else OfFamily(addrs[1..], f)
  }

  predicate AllOf(addrs: seq<SocketAddr>, f: RouteFamily) {
    forall i :: 0 <= i < |addrs| ==> addrs[i].family == f
  }

  /** Two neighbours share a family only if nothing of the other family follows. */
  predicate Alternates(ordered: seq<SocketAddr>) {
    forall i, j :: 0 <= i && i + 1 < j < |ordered| && ordered[i].family == ordered[i + 1].family ==>
      ordered[j].family == ordered[i].family
  }

  /** Takes from the two queues by turns; a queue that is out passes its turn. */
  function Interleave(turn: seq<SocketAddr>, wait: seq<SocketAddr>): seq<SocketAddr>
    decreases |turn| + |wait|
  {
    if turn != [] then [turn[0]] + Interleave(wait, turn[1..])
    else if wait != [] then [wait[0]] + Interleave(wait[1..], turn)
    else []
  }

  lemma {:induction false} OfFamilySnoc(addrs: seq<SocketAddr>, a: SocketAddr, f: RouteFamily)
    ensures OfFamily(addrs + [a], f) == OfFamily(addrs, f) + if a.family == f then [a] else []
  {
    if addrs == [] {
      assert addrs + [a] == [a] && [a][1..] == [];
    } else {
      assert (addrs + [a])[1..] == addrs[1..] + [a];
      OfFamilySnoc(addrs[1..], a, f);
    }
  }

  lemma {:induction false} OfFamilyIsAllOf(addrs: seq<SocketAddr>, f: RouteFamily)
    ensures AllOf(OfFamily(addrs, f), f)
  {
    if addrs == [] {
    } else {
      OfFamilyIsAllOf(addrs[1..], f);
    }
  }

  lemma {:induction false} OneQueueLeft(queue: seq<SocketAddr>)
    ensures Interleave(queue, []) == queue && Interleave([], queue) == queue
    decreases |queue|
  {
    if queue == [] {
    } else {
      OneQueueLeft(queue[1..]);
    }
  }

  lemma FairFirst(turn: seq<SocketAddr>, wait: seq<SocketAddr>, f: RouteFamily, g: RouteFamily)
    requires f != g && AllOf(turn, f) && AllOf(wait, g) && turn != []
    requires Alternates(Interleave(wait, turn[1..]))
    ensures Alternates([turn[0]] + Interleave(wait, turn[1..]))
  {
    var rest := Interleave(wait, turn[1..]);
    var all := [turn[0]] + rest;
    if wait == [] {
      OneQueueLeft(turn[1..]);
    } else {
      assert rest[0] == wait[0];
    }
    forall i, j | 0 <= i && i + 1 < j < |all| && all[i].family == all[i + 1].family ensures all[j].family == all[i].family {
      if i > 0 {
        assert all[i] == rest[i - 1] && all[i + 1] == rest[i - 1 + 1] && all[j] == rest[j - 1];
      }
    }
  }

  /** Each family keeps its order, none is lost, and the families alternate while they can. */
  lemma {:induction false} InterleaveIsFair(turn: seq<SocketAddr>, wait: seq<SocketAddr>, f: RouteFamily, g: RouteFamily)
    requires f != g && AllOf(turn, f) && AllOf(wait, g)
    ensures OfFamily(Interleave(turn, wait), f) == turn && OfFamily(Interleave(turn, wait), g) == wait
    ensures Alternates(Interleave(turn, wait))
    ensures |Interleave(turn, wait)| == |turn| + |wait|
    decreases |turn| + |wait|
  {
    if turn != [] {
      var rest := Interleave(wait, turn[1..]);
      InterleaveIsFair(wait, turn[1..], g, f);
      assert ([turn[0]] + rest)[1..] == rest;
      FairFirst(turn, wait, f, g);
    } else if wait != [] {
      var rest := Interleave(wait[1..], turn);
      InterleaveIsFair(wait[1..], turn, g, f);
      OneQueueLeft(wait[1..]);
      assert ([wait[0]] + rest)[1..] == rest;
    }
  }

  method SplitByFamily(addrs: seq<SocketAddr>) returns (v4: seq<SocketAddr>, v6: seq<SocketAddr>)
    ensures v4 == OfFamily(addrs, Ipv4) && v6 == OfFamily(addrs, Ipv6)
  {
    v4, v6 := [], [];
    for i := 0 to |addrs|
      invariant v4 == OfFamily(addrs[..i], Ipv4) && v6 == OfFamily(addrs[..i], Ipv6)
    {
      assert addrs[..i + 1] == addrs[..i] + [addrs[i]];
      OfFamilySnoc(addrs[..i], addrs[i], Ipv4);
      OfFamilySnoc(addrs[..i], addrs[i], Ipv6);
      match addrs[i].family {
        case Ipv4 => v4 := v4 + [addrs[i]];
        case Ipv6 => v6 := v6 + [addrs[i]];
      }
    }
    assert addrs[..|addrs|] == addrs;
  }

  method TakeTurns(first: seq<SocketAddr>, second: seq<SocketAddr>) returns (ordered: seq<SocketAddr>)
    ensures ordered == Interleave(first, second)
  {
    var turn, wait := first, second;
    ordered := [];
    while turn != [] || wait != []
      invariant ordered + Interleave(turn, wait) == Interleave(first, second)
      decreases |turn| + |wait|
    {
      if turn != [] {
        assert ordered + ([turn[0]] + Interleave(wait, turn[1..])) == (ordered + [turn[0]]) + Interleave(wait, turn[1..]);
        ordered, turn, wait := ordered + [turn[0]], wait, turn[1..];
      } else {
        assert ordered + ([wait[0]] + Interleave(wait[1..], turn)) == (ordered + [wait[0]]) + Interleave(wait[1..], turn);
        ordered, turn, wait := ordered + [wait[0]], wait[1..], turn;
      }
    }
    assert ordered + Interleave(turn, wait) == ordered;
  }

  lemma {:induction false} FamiliesCount(addrs: seq<SocketAddr>)
    ensures |OfFamily(addrs, Ipv4)| + |OfFamily(addrs, Ipv6)| == |addrs|
  {
    if addrs == [] {
    } else {
      FamiliesCount(addrs[1..]);
    }
  }

  /** IPv6 has the first turn if it has an address at all. */
  method OrderForFastFallback(addrs: seq<SocketAddr>) returns (ordered: seq<SocketAddr>)
    ensures |ordered| == |addrs| && Alternates(ordered)
    ensures OfFamily(ordered, Ipv4) == OfFamily(addrs, Ipv4) && OfFamily(ordered, Ipv6) == OfFamily(addrs, Ipv6)
    ensures OfFamily(addrs, Ipv6) != [] ==> ordered != [] && ordered[0].family == Ipv6
  {
    hide Alternates, OfFamily;
    var v4, v6 := SplitByFamily(addrs);
    OfFamilyIsAllOf(addrs, Ipv4);
    OfFamilyIsAllOf(addrs, Ipv6);
    FamiliesCount(addrs);
    if v6 != [] {
      ordered := TakeTurns(v6, v4);
      InterleaveIsFair(v6, v4, Ipv6, Ipv4);
      assert ordered[0] == v6[0];
    } else {
      ordered := TakeTurns(v4, v6);
      InterleaveIsFair(v4, v6, Ipv4, Ipv6);
    }
  }
}
