/**
 * Pruning one bucket of pooled connections at time `now`: what is due for removal goes, and
 * then the longest idle until the idle cap is met.
 */
module Pool {
  import opened Wrappers
  import opened Connections

  /** `None` for an absent timeout; `maxIdle.None?` for an unlimited idle count. */
  datatype Settings = Settings(idleTimeout: Option<nat>, maxIdle: Option<nat>, maxLifetime: Option<nat>)

  datatype IdleEntry = IdleEntry(id: nat, since: nat)

  // ------------------------------------------------------------------- pruning rules

  function Elapsed(now: nat, since: nat): nat {
    if now < since then 0 else now - since
  }

  predicate IdleExpired(s: Status, now: nat, timeout: nat) {
    IsIdle(s) && s.idleSince.Some? && Elapsed(now, s.idleSince.value) >= timeout
  }

  predicate LifetimeExpired(info: Info, s: Status, now: nat, lifetime: nat) {
    IsIdle(s) && Elapsed(now, info.createdAt) >= lifetime
  }

  /** The first pass of pruning drops the connection. */
  predicate Doomed(settings: Settings, now: nat, info: Info, s: Status) {
    || (s.health != Healthy && !InUse(s))
    || (s.health == Healthy && settings.maxLifetime.Some? && LifetimeExpired(info, s, now, settings.maxLifetime.value))
    || (s.health == Healthy && settings.idleTimeout.Some? && IdleExpired(s, now, settings.idleTimeout.value))
  }

  // --------------------------------------------------------------------- bucket lists

  type Bucket = seq<RealConnection>

  predicate DistinctIds(b: Bucket) {
    forall i, j :: 0 <= i < j < |b| ==> b[i].info.id != b[j].info.id
  }

  ghost predicate AllSane(b: Bucket)
    reads b
  {
    forall c :: c in b ==> Sane(c.info, c.status)
  }

  /** `b` without the members of `gone`, in order. */
  ghost function Keep(b: Bucket, gone: set<RealConnection>): Bucket {
    if b == [] then []
    else if b[|b| - 1] in gone then Keep(b[..|b| - 1], gone)
    else Keep(b[..|b| - 1], gone) + [b[|b| - 1]]
  }

  lemma {:induction false} KeepMembers(b: Bucket, gone: set<RealConnection>)
    ensures forall c :: c in Keep(b, gone) ==> c in b && c !in gone
    ensures forall c :: c in b && c !in gone ==> c in Keep(b, gone)
  {
    if b == [] {
    } else {
      KeepMembers(b[..|b| - 1], gone);
      assert b == b[..|b| - 1] + [b[|b| - 1]];
    }
  }

  lemma {:induction false} KeepDistinct(b: Bucket, gone: set<RealConnection>)
    requires DistinctIds(b)
    ensures DistinctIds(Keep(b, gone))
  {
    if b == [] {
    } else {
      var p, c := b[..|b| - 1], b[|b| - 1];
      KeepDistinct(p, gone);
      KeepMembers(p, gone);
      var k := Keep(p, gone);
      forall i | 0 <= i < |k| ensures k[i].info.id != c.info.id {
        assert k[i] in p;
      }
    }
  }

  lemma KeepLast(k: Bucket, c: RealConnection, gone: set<RealConnection>)
    ensures Keep(k + [c], gone) == if c in gone then Keep(k, gone) else Keep(k, gone) + [c]
  {
    assert (k + [c])[..|k|] == k;
  }

  lemma {:induction false} KeepTwice(b: Bucket, g: set<RealConnection>, h: set<RealConnection>)
    ensures Keep(Keep(b, g), h) == Keep(b, g + h)
  {
    if b == [] {
    } else {
      var p, c := b[..|b| - 1], b[|b| - 1];
      KeepTwice(p, g, h);
      if c !in g {
        KeepLast(Keep(p, g), c, h);
      }
    }
  }

  lemma KeepSnoc(b: Bucket, i: nat, gone: set<RealConnection>)
    requires i < |b|
    ensures Keep(b[..i + 1], gone) == if b[i] in gone then Keep(b[..i], gone) else Keep(b[..i], gone) + [b[i]]
  {
    assert b[..i + 1] == b[..i] + [b[i]];
    KeepLast(b[..i], b[i], gone);
  }

  lemma {:induction false} KeepNothing(b: Bucket)
    ensures Keep(b, {}) == b
  {
    if b == [] {
    } else {
      KeepNothing(b[..|b| - 1]);
    }
  }

  // ---------------------------------------------------------------------- the idle cap

  function IdsOf(s: seq<IdleEntry>): set<nat> {
    set e | e in s :: e.id
  }

  predicate DistinctEntries(s: seq<IdleEntry>) {
    forall i, j :: 0 <= i < j < |s| ==> s[i].id != s[j].id
  }

  lemma {:induction false} IdsCount(s: seq<IdleEntry>)
    requires DistinctEntries(s)
    ensures |IdsOf(s)| == |s|
  {
    if s == [] {
    } else {
      var p, e := s[..|s| - 1], s[|s| - 1];
      IdsCount(p);
      assert IdsOf(s) == IdsOf(p) + {e.id};
      assert e.id !in IdsOf(p);
    }
  }

  /** Entry `i` goes before entry `j`: idle for longer, or for as long and listed first. */
  predicate Sooner(idle: seq<IdleEntry>, i: nat, j: nat)
    requires i < |idle| && j < |idle|
  {
    idle[i].since < idle[j].since || (idle[i].since == idle[j].since && i < j)
  }

  function Upto(n: nat): (s: set<nat>)
    ensures |s| == n && forall i :: i in s <==> 0 <= i < n
  {
    if n == 0 then {} else Upto(n - 1) + {n - 1}
  }

  lemma OneIsLeft(n: nat, chosen: set<nat>)
    requires |chosen| < n && chosen <= Upto(n)
    ensures exists i :: 0 <= i < n && i !in chosen
  {
    var rest := Upto(n) - chosen;
    assert chosen + rest == Upto(n);
    var i :| i in rest;
  }

  /** The entry that goes next. */
  method LeastLeft(idle: seq<IdleEntry>, chosen: set<nat>) returns (least: nat)
    requires |chosen| < |idle| && chosen <= Upto(|idle|)
    ensures least < |idle| && least !in chosen
    ensures forall j :: 0 <= j < |idle| && j !in chosen && j != least ==> Sooner(idle, least, j)
  {
    OneIsLeft(|idle|, chosen);
    least := 0;
    while least in chosen
      invariant least < |idle| && forall j :: 0 <= j < least ==> j in chosen
      decreases |idle| - least
    {
      least := least + 1;
    }
    for i := least + 1 to |idle|
      invariant least < i && least !in chosen
      invariant forall j :: 0 <= j < i && j !in chosen && j != least ==> Sooner(idle, least, j)
    {
      if i !in chosen && idle[i].since < idle[least].since {
        least := i;
      }
    }
  }

  /** What the stable sort by idle time puts in front of a chosen entry is chosen too. */
  predicate ClosedUnderSooner(idle: seq<IdleEntry>, chosen: set<nat>)
    requires chosen <= Upto(|idle|)
  {
    forall i, j :: 0 <= i < |idle| && j in chosen && Sooner(idle, i, j) ==> i in chosen
  }

  lemma NextKeepsClosed(idle: seq<IdleEntry>, chosen: set<nat>, least: nat)
    requires chosen <= Upto(|idle|) && ClosedUnderSooner(idle, chosen) && least < |idle|
    requires forall j :: 0 <= j < |idle| && j !in chosen && j != least ==> Sooner(idle, least, j)
    ensures chosen + {least} <= Upto(|idle|) && ClosedUnderSooner(idle, chosen + {least})
  {
  }

  function IdsAt(idle: seq<IdleEntry>, chosen: set<nat>): set<nat>
    requires chosen <= Upto(|idle|)
  {
    set i | i in chosen :: idle[i].id
  }

  lemma NothingIsChosen(idle: seq<IdleEntry>)
    ensures ClosedUnderSooner(idle, {}) && IdsAt(idle, {}) == {}
  {
  }

  lemma ChosenByIds(idle: seq<IdleEntry>, chosen: set<nat>)
    requires DistinctEntries(idle) && chosen <= Upto(|idle|) && ClosedUnderSooner(idle, chosen)
    ensures var ids := IdsAt(idle, chosen);
            && ids <= IdsOf(idle)
            && forall i, j :: 0 <= i < |idle| && 0 <= j < |idle| && Sooner(idle, i, j) && idle[j].id in ids ==> idle[i].id in ids
  {
    assert forall j :: 0 <= j < |idle| ==> (idle[j].id in IdsAt(idle, chosen) <==> j in chosen);
  }

  lemma IdsAtNext(idle: seq<IdleEntry>, chosen: set<nat>, least: nat)
    requires DistinctEntries(idle) && chosen <= Upto(|idle|) && least < |idle| && least !in chosen
    ensures chosen + {least} <= Upto(|idle|)
    ensures IdsAt(idle, chosen + {least}) == IdsAt(idle, chosen) + {idle[least].id} && idle[least].id !in IdsAt(idle, chosen)
  {
    hide Upto;
  }

  /** The ids of the first `n` entries in the order of idle time, equal times in the order listed. */
  method LongestIdle(idle: seq<IdleEntry>, n: nat) returns (ids: set<nat>)
    requires DistinctEntries(idle) && n <= |idle|
    ensures ids <= IdsOf(idle) && |ids| == n
    ensures forall i, j :: 0 <= i < |idle| && 0 <= j < |idle| && Sooner(idle, i, j) && idle[j].id in ids ==> idle[i].id in ids
  {
    hide ClosedUnderSooner, Upto, IdsAt, IdsOf, DistinctEntries, Sooner;
    var chosen: set<nat> := {};
    ids := {};
    NothingIsChosen(idle);
    for k := 0 to n
      invariant chosen <= Upto(|idle|) && |chosen| == k && ClosedUnderSooner(idle, chosen)
      invariant ids == IdsAt(idle, chosen) && |ids| == k
    {
      var least := LeastLeft(idle, chosen);
      NextKeepsClosed(idle, chosen, least);
      IdsAtNext(idle, chosen, least);
      chosen := chosen + {least};
      ids := ids + {idle[least].id};
    }
    ChosenByIds(idle, chosen);
  }

  // --------------------------------------------------------------------------- pruning

  function Members(b: Bucket): set<RealConnection> {
    set c | c in b
  }

  predicate Within(b: Bucket, b': Bucket) {
    forall c :: c in b ==> c in b'
  }

  ghost function IdleIds(b: Bucket): set<nat>
    reads b
  {
    set c | c in b && IsIdle(c.status) :: c.info.id
  }

  function IdleEntries(b: Bucket): seq<IdleEntry>
    reads b
  {
    if b == [] then []
    else
      var c := b[|b| - 1];
      if IsIdle(c.status) && c.status.idleSince.Some?
      then IdleEntries(b[..|b| - 1]) + [IdleEntry(c.info.id, c.status.idleSince.value)]
      else IdleEntries(b[..|b| - 1])
  }

  /** The ids listed are those of the idle connections, each with the time since when. */
  lemma {:induction false} IdleEntriesMatch(b: Bucket)
    requires AllSane(b)
    ensures IdsOf(IdleEntries(b)) == IdleIds(b)
    ensures forall c :: c in b && IsIdle(c.status) ==> IdleEntry(c.info.id, c.status.idleSince.value) in IdleEntries(b)
  {
    if b == [] {
    } else {
      var p, c := b[..|b| - 1], b[|b| - 1];
      assert b == p + [c];
      IdleEntriesMatch(p);
      if IsIdle(c.status) {
        assert IdleIds(b) == IdleIds(p) + {c.info.id};
        assert IdsOf(IdleEntries(b)) == IdsOf(IdleEntries(p)) + {c.info.id};
      } else {
        assert IdleIds(b) == IdleIds(p);
      }
    }
  }

  lemma {:induction false} IdleEntriesBelong(b: Bucket)
    ensures forall e :: e in IdleEntries(b) ==> exists i :: 0 <= i < |b| && b[i].info.id == e.id
  {
    if b == [] {
    } else {
      var p := b[..|b| - 1];
      IdleEntriesBelong(p);
      forall e | e in IdleEntries(b) ensures exists i :: 0 <= i < |b| && b[i].info.id == e.id {
        if e in IdleEntries(p) {
          var i :| 0 <= i < |p| && p[i].info.id == e.id;
          assert b[i].info.id == e.id;
        } else {
          assert b[|b| - 1].info.id == e.id;
        }
      }
    }
  }

  lemma {:induction false} IdleEntriesDistinct(b: Bucket)
    requires DistinctIds(b)
    ensures DistinctEntries(IdleEntries(b))
  {
    if b == [] {
    } else {
      var p, c := b[..|b| - 1], b[|b| - 1];
      IdleEntriesDistinct(p);
      IdleEntriesBelong(p);
      var es := IdleEntries(p);
      forall i | 0 <= i < |es| ensures es[i].id != c.info.id {
        assert es[i] in es;
      }
    }
  }

  ghost function Statuses(b: Bucket): (s: seq<Status>)
    reads b
    ensures |s| == |b| && forall i :: 0 <= i < |b| ==> s[i] == b[i].status
  {
    seq(|b|, i requires 0 <= i < |b| reads b => b[i].status)
  }

  function Shut(s: Status): Status {
    s.(health := Closed, allocations := 0, idleSince := None)
  }

  /** `kept` and `removed` part `b`, in order; the removed are closed, the kept untouched. */
  ghost predicate Parted(b: Bucket, before: seq<Status>, kept: Bucket, removed: Bucket)
    reads b
  {
    && |before| == |b|
    && kept == Keep(b, Members(removed))
    && Within(removed, b) && DistinctIds(removed)
    && forall i :: 0 <= i < |b| ==> b[i].status == if b[i] in removed then Shut(before[i]) else before[i]
  }

  /** The state of a retain loop after `i` elements, for the elements in `gone`. */
  ghost predicate Retained(b: Bucket, before: seq<Status>, gone: set<RealConnection>, i: nat, kept: Bucket, removed: Bucket)
    reads b
  {
    && |before| == |b| && i <= |b| && gone <= Members(b)
    && kept == Keep(b[..i], gone)
    && (forall c :: c in removed ==> c in gone)
    && DistinctIds(removed)
    && (forall j :: 0 <= j < |b| ==> (b[j] in removed <==> j < i && b[j] in gone))
    && (forall j :: 0 <= j < |b| ==> b[j].status == if b[j] in removed then Shut(before[j]) else before[j])
  }

  lemma RetainedAll(b: Bucket, before: seq<Status>, gone: set<RealConnection>, kept: Bucket, removed: Bucket)
    requires Retained(b, before, gone, |b|, kept, removed)
    ensures Parted(b, before, kept, removed) && Members(removed) == gone
  {
    assert b[..|b|] == b;
    forall c | c in gone ensures c in removed {
      var j :| 0 <= j < |b| && b[j] == c;
    }
    assert Members(removed) == gone;
  }

  lemma ShutIsClose(s: Status, s': Status)
    requires s' == s.(health := Closed, allocations := 0, idleSince := None)
    ensures s' == Shut(s)
  {
  }

  /** Visits `b[i]`: closes and drops it if it is in `gone`, keeps it otherwise. */
  method Visit(b: Bucket, ghost before: seq<Status>, ghost gone: set<RealConnection>, i: nat, drop: bool, kept: Bucket, removed: Bucket)
    returns (kept': Bucket, removed': Bucket)
    requires DistinctIds(b) && i < |b| && Retained(b, before, gone, i, kept, removed) && drop == (b[i] in gone)
    modifies b[i]
    ensures Retained(b, before, gone, i + 1, kept', removed')
  {
    KeepSnoc(b, i, gone);
    hide Keep, Shut;
    forall c | c in removed ensures c.info.id != b[i].info.id {
      var j :| 0 <= j < |b| && b[j] == c;
    }
    if drop {
      b[i].Close();
      assert b[i].status == Shut(before[i]) by { ShutIsClose(before[i], b[i].status); }
      kept', removed' := kept, removed + [b[i]];
    } else {
      kept', removed' := kept + [b[i]], removed;
    }
  }

  /** First pass: close and drop what is unhealthy and unused, too old, or idle too long. */
  method RetainLive(settings: Settings, now: nat, b: Bucket) returns (kept: Bucket, removed: Bucket)
    requires DistinctIds(b)
    modifies Members(b)
    ensures Parted(b, old(Statuses(b)), kept, removed)
    ensures forall i :: 0 <= i < |b| ==> (b[i] in removed <==> Doomed(settings, now, b[i].info, old(b[i].status)))
  {
    kept, removed := [], [];
    ghost var before := Statuses(b);
    ghost var gone := set i | 0 <= i < |b| && Doomed(settings, now, b[i].info, before[i]) :: b[i];
    for i := 0 to |b|
      invariant Retained(b, before, gone, i, kept, removed)
    {
      kept, removed := Visit(b, before, gone, i, Doomed(settings, now, b[i].info, b[i].status), kept, removed);
    }
    RetainedAll(b, before, gone, kept, removed);
  }

  /** Second pass of the idle cap: close and drop the connections with the given ids. */
  method RetainOthers(b: Bucket, ids: set<nat>) returns (kept: Bucket, removed: Bucket)
    requires DistinctIds(b)
    modifies Members(b)
    ensures Parted(b, old(Statuses(b)), kept, removed)
    ensures forall i :: 0 <= i < |b| ==> (b[i] in removed <==> b[i].info.id in ids)
  {
    kept, removed := [], [];
    ghost var before := Statuses(b);
    ghost var gone := set c | c in b && c.info.id in ids;
    for i := 0 to |b|
      invariant Retained(b, before, gone, i, kept, removed)
    {
      kept, removed := Visit(b, before, gone, i, b[i].info.id in ids, kept, removed);
    }
    RetainedAll(b, before, gone, kept, removed);
  }

  /** The connection is idle, and the time since when is known. */
  predicate IdleFor(s: Status) {
    IsIdle(s) && s.idleSince.Some?
  }

  /** Of two idle members of a bucket, the one the cap drops first: idle for longer, or for as long and placed first. */
  predicate GoesFirst(before: seq<Status>, i: nat, j: nat)
    requires i < |before| && j < |before| && IdleFor(before[i]) && IdleFor(before[j])
  {
    var x, y := before[i].idleSince.value, before[j].idleSince.value;
    x < y || (x == y && i < j)
  }

  /** Member `i` was idle and goes before every idle member that is kept. */
  ghost predicate GoesBeforeKept(b: Bucket, before: seq<Status>, kept: Bucket, i: nat)
    requires |before| == |b| && i < |b|
  {
    IdleFor(before[i]) && forall j :: 0 <= j < |b| && b[j] in kept && IdleFor(before[j]) ==> GoesFirst(before, i, j)
  }

  function EntryAt(b: Bucket, before: seq<Status>, i: nat): IdleEntry
    requires |before| == |b| && i < |b|
  {
    IdleEntry(b[i].info.id, if before[i].idleSince.Some? then before[i].idleSince.value else 0)
  }

  predicate InOrder(idle: seq<IdleEntry>, e: IdleEntry, f: IdleEntry) {
    exists x, y :: 0 <= x < y < |idle| && idle[x] == e && idle[y] == f
  }

  /** `idle` lists the connections of `b` idle in `before`, with the time since when. */
  ghost predicate ListsIdle(b: Bucket, before: seq<Status>, idle: seq<IdleEntry>) {
    && |before| == |b|
    && DistinctEntries(idle)
    && |IdsOf(idle)| == |idle|
    && (forall i :: 0 <= i < |b| ==> (b[i].info.id in IdsOf(idle) <==> IsIdle(before[i])))
    && (forall x :: x in IdsOf(idle) ==> exists i :: 0 <= i < |b| && b[i].info.id == x)
    && (forall i :: 0 <= i < |b| && IsIdle(before[i]) ==> before[i].idleSince.Some? && EntryAt(b, before, i) in idle)
    && (forall i, j :: 0 <= i < j < |b| && IsIdle(before[i]) && IsIdle(before[j]) ==>
          InOrder(idle, EntryAt(b, before, i), EntryAt(b, before, j)))
  }

  lemma {:induction false} IdleEntriesInOrder(b: Bucket, i: nat, j: nat)
    requires AllSane(b) && i < j < |b| && IsIdle(b[i].status) && IsIdle(b[j].status)
    ensures InOrder(IdleEntries(b), EntryAt(b, Statuses(b), i), EntryAt(b, Statuses(b), j))
  {
    var p, n := b[..|b| - 1], |b| - 1;
    var es := IdleEntries(p);
    assert IdleEntries(b)[..|es|] == es;
    if j == n {
      IdleEntriesMatch(p);
      assert p[i] in p;
      var x :| 0 <= x < |es| && es[x] == EntryAt(b, Statuses(b), i);
      assert IdleEntries(b)[|es|] == EntryAt(b, Statuses(b), j);
      assert IdleEntries(b)[x] == es[x];
    } else {
      IdleEntriesInOrder(p, i, j);
      var x, y :| 0 <= x < y < |es| && es[x] == EntryAt(p, Statuses(p), i) && es[y] == EntryAt(p, Statuses(p), j);
      assert IdleEntries(b)[x] == es[x] && IdleEntries(b)[y] == es[y];
    }
  }

  lemma IdleIdAt(b: Bucket, i: nat)
    requires DistinctIds(b) && i < |b|
    ensures b[i].info.id in IdleIds(b) <==> IsIdle(b[i].status)
  {
    if b[i].info.id in IdleIds(b) {
      var c :| c in b && IsIdle(c.status) && c.info.id == b[i].info.id;
      var j :| 0 <= j < |b| && b[j] == c;
    }
  }

  lemma IdleIdIndex(b: Bucket, x: nat) returns (i: nat)
    requires x in IdleIds(b)
    ensures i < |b| && b[i].info.id == x
  {
    var c :| c in b && c.info.id == x;
    i :| 0 <= i < |b| && b[i] == c;
  }

  lemma IdleIdsList(b: Bucket)
    requires DistinctIds(b) && AllSane(b)
    ensures forall i :: 0 <= i < |b| ==> (b[i].info.id in IdleIds(b) <==> IsIdle(b[i].status))
    ensures forall x :: x in IdleIds(b) ==> exists i :: 0 <= i < |b| && b[i].info.id == x
  {
    hide IdleIds, DistinctIds;
    forall i | 0 <= i < |b| ensures b[i].info.id in IdleIds(b) <==> IsIdle(b[i].status) {
      IdleIdAt(b, i);
    }
    forall x | x in IdleIds(b) ensures exists i :: 0 <= i < |b| && b[i].info.id == x {
      var i := IdleIdIndex(b, x);
    }
  }

  lemma IdleEntriesList(b: Bucket)
    requires DistinctIds(b) && AllSane(b)
    ensures ListsIdle(b, Statuses(b), IdleEntries(b)) && IdsOf(IdleEntries(b)) == IdleIds(b)
  {
    hide IdleEntries, IdsOf, IdleIds, DistinctEntries, DistinctIds, InOrder;
    IdleEntriesMatch(b);
    IdleEntriesDistinct(b);
    IdsCount(IdleEntries(b));
    IdleIdsList(b);
    forall i, j | 0 <= i < j < |b| && IsIdle(b[i].status) && IsIdle(b[j].status)
      ensures InOrder(IdleEntries(b), EntryAt(b, Statuses(b), i), EntryAt(b, Statuses(b), j))
    {
      IdleEntriesInOrder(b, i, j);
    }
  }

  lemma PartNothing(b: Bucket)
    ensures Parted(b, Statuses(b), b, [])
  {
    KeepNothing(b);
    assert Members([]) == {};
  }

  lemma OrderIsStrict(idle: seq<IdleEntry>, e: IdleEntry, f: IdleEntry, x: nat, y: nat)
    requires DistinctEntries(idle) && x < |idle| && y < |idle| && idle[x] == e && idle[y] == f && InOrder(idle, e, f)
    ensures x < y
  {
    var u, v :| 0 <= u < v < |idle| && idle[u] == e && idle[v] == f;
    assert u == x && v == y;
  }

  /** The places of two entries in the list are those of their connections in the bucket. */
  lemma PlacesAgree(b: Bucket, before: seq<Status>, idle: seq<IdleEntry>, i: nat, j: nat, x: nat, y: nat)
    requires ListsIdle(b, before, idle) && i < |b| && j < |b| && IsIdle(before[i]) && IsIdle(before[j])
    requires x < |idle| && y < |idle| && idle[x] == EntryAt(b, before, i) && idle[y] == EntryAt(b, before, j) && x < y
    requires b[i].info.id != b[j].info.id
    ensures i < j
  {
    hide InOrder, IdsOf, EntryAt;
    if j < i {
      OrderIsStrict(idle, EntryAt(b, before, j), EntryAt(b, before, i), y, x);
    }
  }

  lemma ChosenGoFirst(b: Bucket, before: seq<Status>, idle: seq<IdleEntry>, ids: set<nat>, i: nat, j: nat)
    requires ListsIdle(b, before, idle) && i < |b| && j < |b| && IsIdle(before[i]) && IsIdle(before[j])
    requires b[i].info.id in ids && b[j].info.id !in ids
    requires forall x, y :: 0 <= x < |idle| && 0 <= y < |idle| && Sooner(idle, x, y) && idle[y].id in ids ==> idle[x].id in ids
    ensures IdleFor(before[i]) && IdleFor(before[j]) && GoesFirst(before, i, j)
  {
    var x :| 0 <= x < |idle| && idle[x] == EntryAt(b, before, i);
    var y :| 0 <= y < |idle| && idle[y] == EntryAt(b, before, j);
    assert !Sooner(idle, y, x);
    if x < y {
      PlacesAgree(b, before, idle, i, j, x, y);
    }
  }

  lemma SurvivingIds(b: Bucket, before: seq<Status>, kept: Bucket, removed: Bucket, idle: seq<IdleEntry>, ids: set<nat>)
    requires ListsIdle(b, before, idle) && ids <= IdsOf(idle)
    requires forall i :: 0 <= i < |b| ==> (b[i] in removed <==> b[i].info.id in ids)
    requires forall i :: 0 <= i < |b| && b[i] !in removed ==> b[i] in kept && b[i].status == before[i]
    requires forall c :: c in kept ==> exists i :: 0 <= i < |b| && b[i] == c && b[i] !in removed && c.status == before[i]
    ensures |IdleIds(kept)| == |idle| - |ids|
  {
    hide IdsOf, DistinctEntries;
    forall x ensures x in IdleIds(kept) <==> x in IdsOf(idle) - ids {
      if x in IdsOf(idle) - ids {
        var i :| 0 <= i < |b| && b[i].info.id == x;
        assert b[i] in kept && IsIdle(b[i].status);
      }
      if x in IdleIds(kept) {
        var c :| c in kept && IsIdle(c.status) && c.info.id == x;
        var i :| 0 <= i < |b| && b[i] == c && b[i] !in removed && c.status == before[i];
      }
    }
    assert IdleIds(kept) == IdsOf(idle) - ids;
  }

  lemma CapReached(b: Bucket, before: seq<Status>, kept: Bucket, removed: Bucket, idle: seq<IdleEntry>, ids: set<nat>)
    requires Parted(b, before, kept, removed) && ListsIdle(b, before, idle) && ids <= IdsOf(idle)
    requires forall i :: 0 <= i < |b| ==> (b[i] in removed <==> b[i].info.id in ids)
    requires forall x, y :: 0 <= x < |idle| && 0 <= y < |idle| && Sooner(idle, x, y) && idle[y].id in ids ==> idle[x].id in ids
    ensures |IdleIds(kept)| == |idle| - |ids|
    ensures forall i :: 0 <= i < |b| && b[i] in removed ==> GoesBeforeKept(b, before, kept, i)
  {
    KeepMembers(b, Members(removed));
    hide Keep, IdsOf, DistinctEntries, Sooner, InOrder;
    forall c | c in kept ensures exists i :: 0 <= i < |b| && b[i] == c && b[i] !in removed && c.status == before[i] {
      var i :| 0 <= i < |b| && b[i] == c;
    }
    SurvivingIds(b, before, kept, removed, idle, ids);
    forall i | 0 <= i < |b| && b[i] in removed ensures GoesBeforeKept(b, before, kept, i) {
      assert b[i].info.id in IdsOf(idle);
      forall j | 0 <= j < |b| && b[j] in kept && IdleFor(before[j]) ensures GoesFirst(before, i, j) {
        ChosenGoFirst(b, before, idle, ids, i, j);
      }
    }
  }

  method EnforceMaxIdle(maxIdle: Option<nat>, b: Bucket) returns (kept: Bucket, removed: Bucket)
    requires DistinctIds(b) && AllSane(b)
    modifies Members(b)
    ensures Parted(b, old(Statuses(b)), kept, removed)
    ensures maxIdle.Some? ==> |IdleIds(kept)| <= maxIdle.value
    ensures forall i :: 0 <= i < |b| && b[i] in removed ==> GoesBeforeKept(b, old(Statuses(b)), kept, i)
    ensures removed != [] ==> maxIdle.Some? && |IdleIds(kept)| == maxIdle.value
  {
    hide Keep, IdleEntries, IdleIds, Parted, GoesBeforeKept, AllSane;
    ghost var before := Statuses(b);
    IdleEntriesList(b);
    var idle := IdleEntries(b);
    if maxIdle.None? || |idle| <= maxIdle.value {
      PartNothing(b);
      kept, removed := b, [];
      return;
    }
    var ids := LongestIdle(idle, |idle| - maxIdle.value);
    hide ListsIdle;
    kept, removed := RetainOthers(b, ids);
    CapReached(b, before, kept, removed, idle, ids);
  }

  // ------------------------------------------------------------------ a whole bucket

  /** The ids of the members of `kept` that were idle in `before`. */
  ghost function IdleWere(b: Bucket, before: seq<Status>, kept: Bucket): set<nat>
    requires |before| == |b|
  {
    set i | 0 <= i < |b| && b[i] in kept && IsIdle(before[i]) :: b[i].info.id
  }

  /**
   * Pruning bucket `b`, with statuses `before`, leaves `kept`: the members of `b` that are not
   * doomed, in order, except that when more of them are idle than the cap allows, those that go
   * first go until the cap is met. Nothing in use goes.
   */
  ghost predicate Prunes(settings: Settings, now: nat, b: Bucket, before: seq<Status>, kept: Bucket) {
    && |before| == |b|
    && kept == Keep(b, Members(b) - Members(kept))
    && (forall i :: 0 <= i < |b| && b[i] in kept ==> !Doomed(settings, now, b[i].info, before[i]))
    && (forall i :: 0 <= i < |b| && b[i] !in kept ==> !InUse(before[i]))
    && (forall i :: 0 <= i < |b| && b[i] !in kept && !Doomed(settings, now, b[i].info, before[i]) ==>
          && settings.maxIdle.Some? && |IdleWere(b, before, kept)| == settings.maxIdle.value
          && GoesBeforeKept(b, before, kept, i))
    && (settings.maxIdle.Some? ==> |IdleWere(b, before, kept)| <= settings.maxIdle.value)
  }

  /** Pruning carried out: the kept are untouched, the removed closed. */
  ghost predicate Pruned(settings: Settings, now: nat, b: Bucket, before: seq<Status>, kept: Bucket, removed: Bucket)
    reads b
  {
    Parted(b, before, kept, removed) && DistinctIds(kept) && Prunes(settings, now, b, before, kept)
  }

  lemma IdleWereIdle(b: Bucket, before: seq<Status>, kept: Bucket)
    requires |before| == |b|
    requires forall c :: c in kept ==> exists i :: 0 <= i < |b| && b[i] == c && before[i] == c.status
    requires forall i :: 0 <= i < |b| && b[i] in kept ==> before[i] == b[i].status
    ensures IdleWere(b, before, kept) == IdleIds(kept)
  {
    forall x | x in IdleIds(kept) ensures x in IdleWere(b, before, kept) {
      var c :| c in kept && IsIdle(c.status) && c.info.id == x;
      var i :| 0 <= i < |b| && b[i] == c && before[i] == c.status;
    }
  }

  /** Keeping some members keeps their order. */
  lemma {:induction false} KeepOrdered(b: Bucket, gone: set<RealConnection>, k: nat, l: nat) returns (i: nat, j: nat)
    requires k < l < |Keep(b, gone)|
    ensures i < j < |b| && b[i] == Keep(b, gone)[k] && b[j] == Keep(b, gone)[l]
  {
    var p, n := b[..|b| - 1], |b| - 1;
    var kept := Keep(p, gone);
    if l < |kept| {
      i, j := KeepOrdered(p, gone, k, l);
    } else {
      KeepMembers(p, gone);
      assert kept[k] in p;
      i :| 0 <= i < |p| && p[i] == kept[k];
      j := n;
    }
  }

  /** A member dropped for the cap in the second pass goes before all that is kept, told by the indices of `b`. */
  lemma CapInBucket(b: Bucket, before: seq<Status>, live: Bucket, midLive: seq<Status>, gone: set<RealConnection>, kept: Bucket, i: nat, k: nat)
    requires DistinctIds(b) && |before| == |b| && |midLive| == |live| && live == Keep(b, gone)
    requires i < |b| && k < |live| && b[i] == live[k] && Within(kept, live)
    requires forall j, l :: 0 <= j < |b| && 0 <= l < |live| && b[j] == live[l] ==> before[j] == midLive[l]
    requires GoesBeforeKept(live, midLive, kept, k)
    ensures GoesBeforeKept(b, before, kept, i)
  {
    forall j | 0 <= j < |b| && b[j] in kept && IdleFor(before[j]) ensures GoesFirst(before, i, j) {
      assert b[j] in live;
      var l :| 0 <= l < |live| && live[l] == b[j];
      assert GoesFirst(midLive, k, l);
      if k < l {
        var u, v := KeepOrdered(b, gone, k, l);
        assert u == i && v == j;
      }
    }
  }

  /** Statuses after the second pass over `live`, told by the indices of `b`. */
  lemma SecondPassInBucket(b: Bucket, mid: seq<Status>, live: Bucket, midLive: seq<Status>, first: Bucket, second: Bucket)
    requires |mid| == |b| && |midLive| == |live| && live == Keep(b, Members(first)) && Within(second, live)
    requires forall i, k :: 0 <= i < |b| && 0 <= k < |live| && b[i] == live[k] ==> mid[i] == midLive[k]
    requires forall k :: 0 <= k < |live| ==> live[k].status == if live[k] in second then Shut(midLive[k]) else midLive[k]
    requires forall i :: 0 <= i < |b| && b[i] in first ==> b[i].status == mid[i]
    ensures forall i :: 0 <= i < |b| ==> b[i].status == if b[i] in second then Shut(mid[i]) else mid[i]
    ensures forall i :: 0 <= i < |b| && b[i] in second ==> b[i] !in first
  {
    KeepMembers(b, Members(first));
    forall i | 0 <= i < |b|
      ensures b[i].status == if b[i] in second then Shut(mid[i]) else mid[i]
      ensures b[i] in second ==> b[i] !in first
    {
      if b[i] in first {
        assert b[i] !in live;
      } else {
        assert b[i] in live;
        var k :| 0 <= k < |live| && live[k] == b[i];
      }
    }
  }

  lemma TwoPasses(b: Bucket, before: seq<Status>, mid: seq<Status>, live: Bucket, first: Bucket, kept: Bucket, second: Bucket)
    requires |before| == |mid| == |b|
    requires live == Keep(b, Members(first)) && kept == Keep(live, Members(second))
    requires Within(first, b) && Within(second, live) && DistinctIds(b) && DistinctIds(first) && DistinctIds(second)
    requires forall i :: 0 <= i < |b| ==> mid[i] == if b[i] in first then Shut(before[i]) else before[i]
    requires forall i :: 0 <= i < |b| ==> b[i].status == if b[i] in second then Shut(mid[i]) else mid[i]
    ensures Parted(b, before, kept, first + second)
  {
    KeepMembers(b, Members(first));
    KeepTwice(b, Members(first), Members(second));
    assert Members(first + second) == Members(first) + Members(second);
    forall c, d | c in first && d in second ensures c.info.id != d.info.id {
      assert d in live && d !in first;
      var i :| 0 <= i < |b| && b[i] == c;
      var j :| 0 <= j < |b| && b[j] == d;
    }
  }

  lemma DoomedIsUnused(settings: Settings, now: nat, info: Info, s: Status)
    ensures Doomed(settings, now, info, s) ==> !InUse(s)
  {
  }

  /** The first pass decided by `Doomed`, the second by the cap: together they prune the bucket. */
  lemma PassesPrune(settings: Settings, now: nat, b: Bucket, before: seq<Status>, first: Bucket, kept: Bucket, second: Bucket)
    requires DistinctIds(b) && Parted(b, before, kept, first + second)
    requires forall i :: 0 <= i < |b| ==> (b[i] in first <==> Doomed(settings, now, b[i].info, before[i]))
    requires forall i :: 0 <= i < |b| && b[i] in second ==> GoesBeforeKept(b, before, kept, i)
    requires settings.maxIdle.Some? ==> |IdleIds(kept)| <= settings.maxIdle.value
    requires second != [] ==> settings.maxIdle.Some? && |IdleIds(kept)| == settings.maxIdle.value
    ensures Pruned(settings, now, b, before, kept, first + second)
  {
    var removed := first + second;
    KeepMembers(b, Members(removed));
    KeepDistinct(b, Members(removed));
    hide Keep, IdleIds, GoesFirst, Doomed;
    assert Members(b) - Members(kept) == Members(removed);
    forall c | c in kept ensures exists i :: 0 <= i < |b| && b[i] == c && before[i] == c.status {
      var i :| 0 <= i < |b| && b[i] == c;
    }
    IdleWereIdle(b, before, kept);
    forall i | 0 <= i < |b| && b[i] !in kept ensures !InUse(before[i]) {
      DoomedIsUnused(settings, now, b[i].info, before[i]);
    }
  }

  /**
   * Pruning told by statuses and times alone. A connection with streams stays. An idle one stays
   * only if it is healthy and below the idle timeout and the lifetime; and one that is goes only
   * if the idle cap is reached by others that have not been idle for longer.
   */
  lemma PruningIsExact(settings: Settings, now: nat, b: Bucket, before: seq<Status>, kept: Bucket, i: nat)
    requires Prunes(settings, now, b, before, kept) && i < |b| && Sane(b[i].info, before[i]) && before[i].health != Closed
    ensures before[i].allocations > 0 ==> b[i] in kept
    ensures before[i].allocations == 0 && b[i] in kept ==>
              && before[i].health == Healthy
              && (settings.idleTimeout.Some? ==> now < before[i].idleSince.value + settings.idleTimeout.value)
              && (settings.maxLifetime.Some? ==> now < b[i].info.createdAt + settings.maxLifetime.value)
    ensures before[i].allocations == 0 && before[i].health == Healthy && b[i] !in kept
            && (settings.idleTimeout.Some? ==>
                  0 < settings.idleTimeout.value && now < before[i].idleSince.value + settings.idleTimeout.value)
            && (settings.maxLifetime.Some? ==>
                  0 < settings.maxLifetime.value && now < b[i].info.createdAt + settings.maxLifetime.value) ==>
              && settings.maxIdle.Some? && |IdleWere(b, before, kept)| == settings.maxIdle.value
              && forall j :: 0 <= j < |b| && b[j] in kept && IdleFor(before[j]) ==>
                   before[i].idleSince.value <= before[j].idleSince.value
  {
    hide Keep, IdleWere;
  }

  lemma KeptIsTimely(settings: Settings, now: nat, b: Bucket, before: seq<Status>, kept: Bucket, removed: Bucket)
    requires Pruned(settings, now, b, before, kept, removed) && AllSane(b)
    ensures forall c :: c in kept && c.status.health != Closed && c.status.allocations == 0 ==>
              && c.status.health == Healthy && c.status.idleSince.Some?
              && (settings.idleTimeout.Some? ==> now < c.status.idleSince.value + settings.idleTimeout.value)
              && (settings.maxLifetime.Some? ==> now < c.info.createdAt + settings.maxLifetime.value)
  {
    KeepMembers(b, Members(removed));
    hide Keep, Prunes, Doomed;
    forall c | c in kept && c.status.health != Closed && c.status.allocations == 0
      ensures c.status.health == Healthy && c.status.idleSince.Some?
      ensures settings.idleTimeout.Some? ==> now < c.status.idleSince.value + settings.idleTimeout.value
      ensures settings.maxLifetime.Some? ==> now < c.info.createdAt + settings.maxLifetime.value
    {
      var i :| 0 <= i < |b| && b[i] == c;
      PruningIsExact(settings, now, b, before, kept, i);
    }
  }

  method PruneConnections(settings: Settings, now: nat, b: Bucket) returns (kept: Bucket, removed: Bucket)
    requires DistinctIds(b) && AllSane(b)
    modifies Members(b)
    ensures AllSane(b) && Pruned(settings, now, b, old(Statuses(b)), kept, removed)
    ensures forall c :: c in kept && c.status.health != Closed && c.status.allocations == 0 ==>
              && c.status.health == Healthy && c.status.idleSince.Some?
              && (settings.idleTimeout.Some? ==> now < c.status.idleSince.value + settings.idleTimeout.value)
              && (settings.maxLifetime.Some? ==> now < c.info.createdAt + settings.maxLifetime.value)
  {
    hide Keep, GoesBeforeKept, IdleIds, Doomed, Pruned;
    ghost var before := Statuses(b);
    var live, first := RetainLive(settings, now, b);
    KeepMembers(b, Members(first));
    KeepDistinct(b, Members(first));
    ghost var mid, midLive := Statuses(b), Statuses(live);
    assert Members(live) <= Members(b);
    var second;
    kept, second := EnforceMaxIdle(settings.maxIdle, live);
    removed := first + second;
    SecondPassInBucket(b, mid, live, midLive, first, second);
    TwoPasses(b, before, mid, live, first, kept, second);
    KeepMembers(live, Members(second));
    forall i | 0 <= i < |b| && b[i] in second ensures GoesBeforeKept(b, before, kept, i) {
      var k :| 0 <= k < |live| && live[k] == b[i];
      CapInBucket(b, before, live, midLive, Members(first), kept, i, k);
    }
    PassesPrune(settings, now, b, before, first, kept, second);
    KeptIsTimely(settings, now, b, before, kept, removed);
  }
}
