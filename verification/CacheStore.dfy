/** The in-memory store: candidates per key, bounded in keys and in body bytes. */
module CacheStore {
  import opened Cache

  type Entries = map<string, seq<Entry>>

  function CandidatesAt(entries: Entries, key: string): seq<Entry> {
    if key in entries then entries[key] else []
  }

  // ------------------------------------------------------------------------- variants

  /** Replaces the candidate of the same variant, or adds one. */
  function Replace(candidates: seq<Entry>, e: Entry): seq<Entry> {
    if candidates == [] then [e]
    else if candidates[0].vary == e.vary then [e] + candidates[1..]
    else [candidates[0]] + Replace(candidates[1..], e)
  }

  function Without(candidates: seq<Entry>, vary: Vary): seq<Entry> {
    if candidates == [] then []
    else if candidates[0].vary == vary then Without(candidates[1..], vary)
    else [candidates[0]] + Without(candidates[1..], vary)
  }

  /** No two candidates are of the same variant. */
  predicate DistinctVariants(candidates: seq<Entry>) {
    forall i, j :: 0 <= i < j < |candidates| ==> candidates[i].vary != candidates[j].vary
  }

  lemma {:induction false} ReplaceMembers(candidates: seq<Entry>, e: Entry)
    ensures e in Replace(candidates, e)
    ensures forall x :: x in Replace(candidates, e) ==> x == e || x in candidates
    ensures forall x :: x in candidates && x.vary != e.vary ==> x in Replace(candidates, e)
  {
    if candidates == [] {
    } else {
      ReplaceMembers(candidates[1..], e);
    }
  }

  lemma {:induction false} ReplaceVariants(candidates: seq<Entry>, e: Entry)
    requires DistinctVariants(candidates)
    ensures DistinctVariants(Replace(candidates, e))
    ensures forall x :: x in Replace(candidates, e) ==> x.vary == e.vary || exists y :: y in candidates && y.vary == x.vary
  {
    if candidates == [] {
    } else {
      var rest := candidates[1..];
      ReplaceVariants(rest, e);
      if candidates[0].vary != e.vary {
        var r := Replace(rest, e);
        forall i | 0 <= i < |r| ensures r[i].vary != candidates[0].vary {
          assert r[i] in r;
        }
      }
    }
  }

  lemma {:induction false} ReplacePasses(head: seq<Entry>, tail: seq<Entry>, e: Entry)
    requires forall j :: 0 <= j < |head| ==> head[j].vary != e.vary
    ensures Replace(head + tail, e) == head + Replace(tail, e)
  {
    if head == [] {
      assert head + tail == tail;
    } else {
      ReplacePasses(head[1..], tail, e);
      assert (head + tail)[1..] == head[1..] + tail;
      assert [head[0]] + (head[1..] + Replace(tail, e)) == head + Replace(tail, e);
    }
  }

  /** The candidate of the same variant is replaced where it stands; a new variant goes to the end. */
  lemma ReplaceIsInPlace(head: seq<Entry>, x: Entry, tail: seq<Entry>, e: Entry)
    requires forall j :: 0 <= j < |head| ==> head[j].vary != e.vary
    ensures x.vary == e.vary ==> Replace(head + [x] + tail, e) == head + [e] + tail
    ensures Replace(head, e) == head + [e]
  {
    ReplacePasses(head, [x] + tail, e);
    assert ([x] + tail)[1..] == tail;
    assert head + ([x] + tail) == head + [x] + tail && head + ([e] + tail) == head + [e] + tail;
    ReplacePasses(head, [], e);
    assert head + [] == head;
  }

  lemma {:induction false} WithoutMembers(candidates: seq<Entry>, vary: Vary)
    ensures forall x :: x in Without(candidates, vary) <==> x in candidates && x.vary != vary
    ensures DistinctVariants(candidates) ==> DistinctVariants(Without(candidates, vary))
  {
    if candidates == [] {
    } else {
      var rest := candidates[1..];
      WithoutMembers(rest, vary);
      if candidates[0].vary != vary && DistinctVariants(candidates) {
        var r := Without(rest, vary);
        forall i | 0 <= i < |r| ensures r[i].vary != candidates[0].vary {
          assert r[i] in rest;
        }
      }
    }
  }

  // ----------------------------------------------------------------------------- limits

  function Bytes(candidates: seq<Entry>): nat {
    if candidates == [] then 0 else |candidates[0].body| + Bytes(candidates[1..])
  }

  ghost function TotalBytes(entries: Entries): nat {
    if entries == map[] then 0
    else
      var key :| key in entries;
      Bytes(entries[key]) + TotalBytes(entries - {key})
  }

  /** The total does not depend on the order in which keys are visited. */
  lemma {:induction false} TotalWithout(entries: Entries, key: string)
    requires key in entries
    ensures TotalBytes(entries) == Bytes(entries[key]) + TotalBytes(entries - {key})
  {
    var first :| first in entries && TotalBytes(entries) == Bytes(entries[first]) + TotalBytes(entries - {first});
    if first == key {
    } else {
      TotalWithout(entries - {first}, key);
      TotalWithout(entries - {key}, first);
      assert entries - {first} - {key} == entries - {key} - {first};
    }
  }

  method CandidateBytes(candidates: seq<Entry>) returns (n: nat)
    ensures n == Bytes(candidates)
  {
    n := 0;
    for i := 0 to |candidates|
      invariant n + Bytes(candidates[i..]) == Bytes(candidates)
    {
      assert candidates[i..][1..] == candidates[i + 1..];
      n := n + |candidates[i].body|;
    }
  }

  method SumBytes(entries: Entries) returns (total: nat)
    ensures total == TotalBytes(entries)
  {
    total := 0;
    var rest := entries;
    while rest != map[]
      invariant total + TotalBytes(rest) == TotalBytes(entries)
      decreases |rest|
    {
      var key :| key in rest;
      TotalWithout(rest, key);
      var bytes := CandidateBytes(rest[key]);
      total := total + bytes;
      rest := rest - {key};
    }
  }

  // --------------------------------------------------------------------- the operations

  function Inserted(entries: Entries, key: string, e: Entry): Entries {
    entries[key := Replace(CandidatesAt(entries, key), e)]
  }

  /** Whole keys went, nothing else changed. */
  predicate EvictedFrom(entries: Entries, after: Entries) {
    forall key :: key in after ==> key in entries && after[key] == entries[key]
  }

  ghost predicate WithinLimits(entries: Entries, maxEntries: nat, maxBodyBytes: nat) {
    |entries| <= maxEntries && TotalBytes(entries) <= maxBodyBytes
  }

  /** Storing `e` may lead from `entries` to `after`. */
  ghost predicate PutLeadsTo(entries: Entries, key: string, e: Entry, maxEntries: nat, maxBodyBytes: nat, after: Entries) {
    if |e.body| > maxBodyBytes then after == entries
    else
      && EvictedFrom(Inserted(entries, key, e), after)
      && WithinLimits(after, maxEntries, maxBodyBytes)
      && (WithinLimits(Inserted(entries, key, e), maxEntries, maxBodyBytes) ==> after == Inserted(entries, key, e))
  }

  function VariantRemoved(entries: Entries, key: string, vary: Vary): Entries {
    if key !in entries then entries
    else
      var rest := Without(entries[key], vary);
      if rest == [] then entries - {key} else entries[key := rest]
  }

  /** No key without candidates, no key with two candidates of one variant. */
  predicate Sound(entries: Entries) {
    forall key :: key in entries ==> entries[key] != [] && DistinctVariants(entries[key])
  }

  /** Finds the variant's candidate and overwrites it, or appends. */
  method PlaceCandidate(candidates: seq<Entry>, e: Entry) returns (r: seq<Entry>)
    ensures r == Replace(candidates, e)
  {
    hide Replace;
    for i := 0 to |candidates|
      invariant forall j :: 0 <= j < i ==> candidates[j].vary != e.vary
    {
      if candidates[i].vary == e.vary {
        ReplaceIsInPlace(candidates[..i], candidates[i], candidates[i + 1..], e);
        assert candidates == candidates[..i] + [candidates[i]] + candidates[i + 1..];
        return candidates[i := e];
      }
    }
    ReplaceIsInPlace(candidates, e, [], e);
    return candidates + [e];
  }

  method RetainOthers(candidates: seq<Entry>, vary: Vary) returns (r: seq<Entry>)
    ensures r == Without(candidates, vary)
  {
    r := [];
    for i := 0 to |candidates|
      invariant r + Without(candidates[i..], vary) == Without(candidates, vary)
    {
      assert candidates[i..][1..] == candidates[i + 1..];
      if candidates[i].vary != vary {
        assert r + ([candidates[i]] + Without(candidates[i + 1..], vary)) == (r + [candidates[i]]) + Without(candidates[i + 1..], vary);
        r := r + [candidates[i]];
      }
    }
  }

  class MemoryCacheStore {
    var entries: Entries
    const maxEntries: nat
    const maxBodyBytes: nat

    constructor (maxEntries: nat, maxBodyBytes: nat)
      ensures entries == map[] && this.maxEntries == (if maxEntries < 1 then 1 else maxEntries) && this.maxBodyBytes == maxBodyBytes
    {
      entries := map[];
      this.maxEntries := if maxEntries < 1 then 1 else maxEntries;
      this.maxBodyBytes := maxBodyBytes;
    }

    /** Drops arbitrary keys until both limits hold. */
    method EnforceLimits()
      modifies this
      ensures EvictedFrom(old(entries), entries) && WithinLimits(entries, maxEntries, maxBodyBytes)
      ensures WithinLimits(old(entries), maxEntries, maxBodyBytes) ==> entries == old(entries)
      ensures Sound(old(entries)) ==> Sound(entries)
    {
      while |entries| > maxEntries
        invariant EvictedFrom(old(entries), entries)
        invariant WithinLimits(old(entries), maxEntries, maxBodyBytes) ==> entries == old(entries)
        decreases |entries|
      {
        var oldest :| oldest in entries;
        entries := entries - {oldest};
      }
      var total := SumBytes(entries);
      while total > maxBodyBytes && entries != map[]
        invariant EvictedFrom(old(entries), entries) && |entries| <= maxEntries && total == TotalBytes(entries)
        invariant WithinLimits(old(entries), maxEntries, maxBodyBytes) ==> entries == old(entries)
        decreases |entries|
      {
        var oldest :| oldest in entries;
        entries := entries - {oldest};
        total := SumBytes(entries);
      }
    }

    method PutCandidate(key: string, value: Entry)
      modifies this
      ensures PutLeadsTo(old(entries), key, value, maxEntries, maxBodyBytes, entries)
      ensures Sound(old(entries)) ==> Sound(entries)
    {
      if |value.body| > maxBodyBytes {
        return;
      }
      ghost var before := entries;
      var candidates := PlaceCandidate(CandidatesAt(entries, key), value);
      entries := entries[key := candidates];
      if Sound(before) {
        ReplaceMembers(CandidatesAt(before, key), value);
        ReplaceVariants(CandidatesAt(before, key), value);
      }
      EnforceLimits();
    }

    method Remove(key: string)
      modifies this
      ensures entries == old(entries) - {key}
      ensures Sound(old(entries)) ==> Sound(entries)
    {
      entries := entries - {key};
    }

    method RemoveCandidate(key: string, value: Entry)
      modifies this
      ensures entries == VariantRemoved(old(entries), key, value.vary)
      ensures Sound(old(entries)) ==> Sound(entries)
    {
      if key !in entries {
        return;
      }
      var rest := RetainOthers(entries[key], value.vary);
      WithoutMembers(entries[key], value.vary);
      entries := if rest == [] then entries - {key} else entries[key := rest];
    }
  }
}
