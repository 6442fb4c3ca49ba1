/** Pooled connections: the state under each connection's mutex, and the host match for coalescing. */
module Connections {
  import opened Wrappers
  import opened Planning

  datatype Protocol = Http1 | Http2

  datatype Health = Healthy | Unhealthy | Closed

  datatype Status = Status(health: Health, allocations: nat, idleSince: Option<nat>, completedExchanges: nat)

  datatype Info = Info(
    id: nat,
    route: Route,
    protocol: Protocol,
    verifiedServerNames: seq<string>,
    maxHttp2Streams: nat,
    createdAt: nat)

  /** `Idle` in the allocation state: open and without streams. */
  predicate IsIdle(s: Status) {
    s.health != Closed && s.allocations == 0
  }

  predicate InUse(s: Status) {
    s.health != Closed && s.allocations > 0
  }

  function Streams(info: Info): nat {
    match info.protocol
    case Http1 => 1
    case Http2 => if info.maxHttp2Streams < 1 then 1 else info.maxHttp2Streams
  }

  predicate CanAcquire(info: Info, s: Status) {
    s.health == Healthy && s.allocations < Streams(info)
  }

  /** What every reachable status satisfies: the idle clock runs exactly while the connection is idle. */
  predicate Sane(info: Info, s: Status) {
    && (s.health == Closed ==> s.allocations == 0 && s.idleSince.None?)
    && (s.health != Closed ==> (s.idleSince.Some? <==> s.allocations == 0))
    && s.allocations <= Streams(info)
  }

  /** One stream fewer and one exchange more; the idle clock starts with the last stream's end. */
  function Released(s: Status, now: nat): Status
    requires InUse(s)
  {
    Status(s.health, s.allocations - 1, if s.allocations == 1 then Some(now) else s.idleSince, s.completedExchanges + 1)
  }

  class RealConnection {
    const info: Info
    var status: Status

    constructor (info: Info, now: nat)
      ensures this.info == info && status == Status(Healthy, 0, Some(now), 0) && Sane(info, status)
    {
      this.info := info;
      status := Status(Healthy, 0, Some(now), 0);
    }

    method TryAcquire() returns (ok: bool)
      requires Sane(info, status)
      modifies this
      ensures ok == old(CanAcquire(info, status)) && Sane(info, status)
      ensures ok <==>
              && old(status).health == Healthy
              && (old(status).allocations == 0 || (info.protocol == Http2 && old(status).allocations < info.maxHttp2Streams))
      ensures status == if ok then old(status).(allocations := old(status).allocations + 1, idleSince := None) else old(status)
    {
      if status.health != Healthy {
        return false;
      }
      match info.protocol {
        case Http1 =>
          if status.allocations > 0 { return false; }
        case Http2 =>
          if status.allocations >= (if info.maxHttp2Streams < 1 then 1 else info.maxHttp2Streams) { return false; }
      }
      status := status.(allocations := status.allocations + 1, idleSince := None);
      return true;
    }

    method Release(now: nat) returns (ok: bool)
      requires Sane(info, status)
      modifies this
      ensures ok == old(InUse(status)) && Sane(info, status)
      ensures status == if ok then Released(old(status), now) else old(status)
      ensures ok ==>
                && status.health == old(status).health && status.allocations == old(status).allocations - 1
                && status.completedExchanges == old(status).completedExchanges + 1
                && status.idleSince == if status.allocations == 0 then Some(now) else old(status).idleSince
    {
      if status.health == Closed || status.allocations == 0 {
        return false;
      }
      status := status.(allocations := status.allocations - 1, completedExchanges := status.completedExchanges + 1);
      if status.allocations == 0 {
        status := status.(idleSince := Some(now));
      }
      return true;
    }

    method MarkUnhealthy()
      requires Sane(info, status)
      modifies this
      ensures Sane(info, status)
      ensures status == if old(status.health) == Closed then old(status) else old(status).(health := Unhealthy)
    {
      if status.health != Closed {
        status := status.(health := Unhealthy);
      }
    }

    method Close()
      modifies this
      ensures Sane(info, status)
      ensures status == old(status).(health := Closed, allocations := 0, idleSince := None)
    {
      status := status.(health := Closed, allocations := 0, idleSince := None);
    }
  }

  // ------------------------------------------------------------ coalescing host match

  predicate EndsWith(s: string, suffix: string) {
    |suffix| <= |s| && s[|s| - |suffix|..] == suffix
  }

  predicate VerifiedServerNameMatches(pattern: string, host: string) {
    if pattern == host then true
    else if !("*." <= pattern) then false
    else
      var suffix := pattern[2..];
      if !EndsWith(host, suffix) then false
      else
        var prefix := host[..|host| - |suffix|];
        prefix != [] && prefix[|prefix| - 1] == '.' && '.' !in prefix[..|prefix| - 1]
  }

  /** `host` is one label put in front of the part of `pattern` that follows its star. */
  predicate WildcardLabel(pattern: string, host: string, part: string) {
    "*." <= pattern && '.' !in part && host == part + pattern[1..]
  }

  /** The match is an exact name, or a wildcard that stands for a single label. */
  lemma ServerNameMatchIsOneLabel(pattern: string, host: string)
    ensures VerifiedServerNameMatches(pattern, host) <==>
            pattern == host || exists part :: WildcardLabel(pattern, host, part)
  {
    if "*." <= pattern {
      var suffix := pattern[2..];
      assert pattern[1..] == "." + suffix;
      if VerifiedServerNameMatches(pattern, host) && pattern != host {
        var prefix := host[..|host| - |suffix|];
        assert host == prefix[..|prefix| - 1] + ("." + suffix);
        assert WildcardLabel(pattern, host, prefix[..|prefix| - 1]);
      }
      forall part | WildcardLabel(pattern, host, part) ensures VerifiedServerNameMatches(pattern, host) {
        assert host[|host| - |suffix|..] == suffix;
        assert host[..|host| - |suffix|] == part + ".";
        assert (part + ".")[..|part|] == part;
      }
    }
  }

  /** The label may be empty: a host that starts with the dot passes. */
  lemma WildcardAcceptsEmptyLabel(suffix: string)
    ensures VerifiedServerNameMatches("*." + suffix, "." + suffix)
  {
    assert WildcardLabel("*." + suffix, "." + suffix, "") by {
      assert ("*." + suffix)[1..] == "." + suffix;
    }
    ServerNameMatchIsOneLabel("*." + suffix, "." + suffix);
  }

  /**
   * A caller that rules out the host that is the pattern without its star gets what a wildcard
   * promises: a match is equality, or one nonempty label in the star's place.
   */
  lemma MatchIsNonemptyLabelUnlessDotted(pattern: string, host: string)
    requires !("*." <= pattern && host == pattern[1..])
    ensures VerifiedServerNameMatches(pattern, host) <==>
            pattern == host || exists part :: part != "" && WildcardLabel(pattern, host, part)
  {
    hide VerifiedServerNameMatches;
    ServerNameMatchIsOneLabel(pattern, host);
    forall part | WildcardLabel(pattern, host, part) ensures part != "" {
      assert "" + pattern[1..] == pattern[1..];
    }
  }
}
