/**
 * The cache's rules told by methods, fields, directives and times: when it answers at once,
 * when it validates, what it stores and what it removes.
 */
module CacheLaws {
  import opened Wrappers
  import opened Cache
  import opened CacheStore
  import opened CacheRuns

  // -------------------------------------------------------------------- answering at once

  /** The entry tracks the credentials of a request that has some, and the request has all the values it tracks. */
  predicate Selects(e: Entry, h: Headers) {
    && ("authorization" in h ==> exists i :: 0 <= i < |e.vary| && e.vary[i].name == "authorization")
    && forall i :: 0 <= i < |e.vary| ==> e.vary[i].values == if e.vary[i].name in h then h[e.vary[i].name] else []
  }

  /** `e` is a candidate for the request, and no newer one is. */
  predicate IsNewest(candidates: seq<Entry>, h: Headers, e: Entry) {
    exists i :: 0 <= i < |candidates| && candidates[i] == e && Selects(e, h) && forall j :: i < j < |candidates| ==> !Selects(candidates[j], h)
  }

  /** At this age the response is fresh, by its own lifetime and by what the request asks for. */
  predicate FreshAt(e: Entry, d: Directives, age: nat) {
    && age < e.lifetime && (d.maxAge.Some? ==> age < d.maxAge.value)
    && (d.minFresh.Some? ==>
          age + d.minFresh.value <= e.lifetime && (d.maxAge.Some? ==> age + d.minFresh.value <= d.maxAge.value))
  }

  /** The request takes a response that is stale by this much, and the response does not forbid it. */
  predicate StaleAllowedAt(e: Entry, d: Directives, age: nat) {
    && !e.mustRevalidate && d.minFresh.None? && d.maxStale.Some?
    && (d.maxStale.value.Limit? ==>
          && age <= e.lifetime + d.maxStale.value.seconds
          && (d.maxAge.Some? ==> age <= d.maxAge.value + d.maxStale.value.seconds))
  }

  predicate UsableAt(e: Entry, d: Directives, now: nat) {
    var age := if now < e.storedAt then e.initialAge else e.initialAge + (now - e.storedAt);
    !e.mustValidate && (FreshAt(e, d, age) || StaleAllowedAt(e, d, age))
  }

  lemma ServableIsUsable(codec: Codec, r: Request, e: Entry, now: nat)
    ensures IsServable(e, RequestPolicy(codec, r), now) <==> UsableAt(e, codec.requestDirectives(r.headers), now)
  {
  }

  lemma MatchIsSelection(e: Entry, h: Headers)
    ensures MatchesRequest(e, AUTHORIZATION in h, h) <==> Selects(e, h)
  {
  }

  lemma FoundIsNewest(candidates: seq<Entry>, h: Headers, e: Entry)
    ensures LastMatch(candidates, AUTHORIZATION in h, h) == Some(e) <==> IsNewest(candidates, h, e)
  {
    hide Selects, MatchesRequest;
    forall x ensures MatchesRequest(x, AUTHORIZATION in h, h) <==> Selects(x, h) {
      MatchIsSelection(x, h);
    }
    LastMatchIsNewest(candidates, AUTHORIZATION in h, h);
    if IsNewest(candidates, h, e) {
      var i :| 0 <= i < |candidates| && candidates[i] == e && Selects(e, h) && forall j :: i < j < |candidates| ==> !Selects(candidates[j], h);
      NewestIsLastMatch(candidates, AUTHORIZATION in h, h, i);
    }
  }

  lemma NoneIsNewest(h: Headers, e: Entry)
    ensures !IsNewest([], h, e)
  {
  }

  lemma ZeroMaxAgeNeedsMaxStale(e: Entry, d: Directives, now: nat)
    ensures UsableAt(e, d, now) && d.maxAge == Some(0) ==> d.maxStale.Some?
  {
  }

  /**
   * The lookup answers with `e` exactly for a GET without a body and without `no-cache` for which
   * `e` is the newest candidate and usable.
   */
  lemma HitIsExact(codec: Codec, entries: Entries, r: Request, now: nat, e: Entry)
    ensures LookUp(codec, entries, r, now) == Hit(e) <==>
            && r.verb == "GET" && r.emptyBody && !codec.requestDirectives(r.headers).noCache
            && r.key in entries && IsNewest(entries[r.key], r.headers, e)
            && UsableAt(e, codec.requestDirectives(r.headers), now)
  {
    hide LastMatch, IsServable, IsNewest;
    FoundIsNewest(CandidatesAt(entries, r.key), r.headers, e);
    NoneIsNewest(r.headers, e);
    ServableIsUsable(codec, r, e, now);
    ZeroMaxAgeNeedsMaxStale(e, codec.requestDirectives(r.headers), now);
    hide UsableAt;
  }

  /** `only-if-cached` without an answer is a 504, and nothing else is. */
  lemma UnsatisfiableIsExact(codec: Codec, entries: Entries, r: Request, now: nat)
    ensures LookUp(codec, entries, r, now) == Unsatisfiable <==>
            && r.verb == "GET" && r.emptyBody && codec.requestDirectives(r.headers).onlyIfCached
            && !LookUp(codec, entries, r, now).Hit?
  {
    hide LastMatch, IsServable;
  }

  /**
   * The network is asked to validate `e` exactly if `e` is the newest candidate of a request that
   * may go to the network, is no hit, has a validator, and the request brings no condition of its own.
   */
  lemma ValidationIsExact(codec: Codec, entries: Entries, r: Request, now: nat, e: Entry)
    ensures LookUp(codec, entries, r, now) == Miss(Some(e)) <==>
            && r.verb == "GET" && r.emptyBody && !codec.requestDirectives(r.headers).onlyIfCached
            && r.key in entries && IsNewest(entries[r.key], r.headers, e) && !LookUp(codec, entries, r, now).Hit?
            && ("etag" in e.headers || "last-modified" in e.headers)
            && "if-none-match" !in r.headers && "if-modified-since" !in r.headers
  {
    hide LastMatch, IsServable, IsNewest;
    FoundIsNewest(CandidatesAt(entries, r.key), r.headers, e);
    NoneIsNewest(r.headers, e);
  }

  /**
   * Over every run: a call is answered at once exactly if the store then has a newest candidate
   * that is usable, and it gets that candidate's body.
   */
  lemma AnsweredAtOnceExactly(config: Config, run: Run, k: nat, e: Entry)
    requires IsRun(config, run) && k < |run.actions| && run.actions[k].Begin?
    ensures var s, s', x := run.states[k], run.states[k + 1], run.actions[k];
            var d := config.codec.requestDirectives(x.request.headers);
            && (x.request.verb == "GET" && x.request.emptyBody && !d.noCache && x.request.key in s.entries
                && IsNewest(s.entries[x.request.key], x.request.headers, e) && UsableAt(e, d, x.now) ==>
                  s'.history == s.history + [Served(x.request.key, x.request.headers, e.body)])
            && (s'.history != s.history ==>
                  exists f :: && x.request.verb == "GET" && x.request.emptyBody && !d.noCache && x.request.key in s.entries
                              && IsNewest(s.entries[x.request.key], x.request.headers, f) && UsableAt(f, d, x.now)
                              && s'.history == s.history + [Served(x.request.key, x.request.headers, f.body)])
  {
    var s, s', x := run.states[k], run.states[k + 1], run.actions[k];
    assert Step(config, s, x, s');
    HitIsExact(config.codec, s.entries, x.request, x.now, e);
    var lookup := LookUp(config.codec, s.entries, x.request, x.now);
    if lookup.Hit? {
      HitIsExact(config.codec, s.entries, x.request, x.now, lookup.entry);
    }
    hide IsNewest, UsableAt, LookUp, IsRun;
  }

  // ------------------------------------------------------------------------------ storing

  predicate HasVersion(h: Headers) {
    "etag" in h || "last-modified" in h
  }

  /** The response may be kept, seen by its status and fields; `authorized` if the request has credentials. */
  predicate KeepingAllowed(codec: Codec, h: Headers, authorized: bool, now: nat) {
    var d := codec.responseDirectives(h);
    && "set-cookie" !in h && !d.noStore
    && (authorized ==> d.isPublic || d.sMaxage.Some? || d.mustRevalidate)
    && (d.noCache || codec.lifetime(h, now) == 0 ==> HasVersion(h))
    && forall v :: v in ValuesOf(h, "vary") ==> !Unusable(v)
  }

  lemma CaptureNeedsUsableVary(response: Headers, request: Headers)
    ensures Capture(response, request).Some? <==> forall v :: v in ValuesOf(response, "vary") ==> !Unusable(v)
  {
    hide Unusable, Capture;
    CaptureIsExact(response, request);
  }

  /** The entry is the response as received now, tied to the request by the fields it varies by and its credentials. */
  ghost predicate IsRecord(codec: Codec, e: Entry, h: Headers, body: string, request: Headers, tracksAuth: bool, now: nat) {
    && e.status == 200 && e.headers == h && e.body == body && e.storedAt == now
    && e.initialAge == codec.age(h, now) && e.lifetime == codec.lifetime(h, now)
    && e.mustValidate == codec.responseDirectives(h).noCache && e.mustRevalidate == codec.responseDirectives(h).mustRevalidate
    && (forall n :: Tracks(e.vary, n) <==> (n == "authorization" && tracksAuth) || exists v :: v in ValuesOf(h, "vary") && ListsName(v, n))
    && forall i :: 0 <= i < |e.vary| ==> e.vary[i].values == ValuesOf(request, e.vary[i].name)
  }

  lemma CapturedIsRecord(codec: Codec, h: Headers, body: string, captured: Vary, request: Headers, tracksAuth: bool, now: nat)
    requires Capture(h, request) == Some(captured)
    ensures IsRecord(codec, NewEntry(codec, 200, h, body, if tracksAuth then Include(captured, AUTHORIZATION, request) else captured, now),
                     h, body, request, tracksAuth, now)
  {
    CaptureIsExact(h, request);
    CaptureMatches(h, request);
    IncludeMatches(captured, AUTHORIZATION, request);
    IncludeTracks(captured, AUTHORIZATION, request);
    hide Capture, Include, Tracks, ListsName, Unusable;
  }

  /**
   * What a network answer puts into the store: a 200 whose fields allow it, in answer to a GET
   * without a body and without `no-store`, and nothing else; and the entry records that answer.
   */
  lemma StoresExactly(codec: Codec, r: Request, validation: Option<Entry>, reply: Reply, now: nat)
    requires !(validation.Some? && reply.status == 304)
    ensures var ops := Handle(codec, r, validation, reply, now).ops;
            && ((exists op :: op in ops && op.Put?) <==>
                  && r.verb == "GET" && r.emptyBody && !codec.requestDirectives(r.headers).noStore
                  && reply.status == 200 && KeepingAllowed(codec, reply.headers, "authorization" in r.headers, now))
            && Handle(codec, r, validation, reply, now).answer == FromNetwork
            && forall op :: op in ops && op.Put? ==>
                 op.key == r.key && IsRecord(codec, op.entry, reply.headers, reply.body, r.headers, "authorization" in r.headers, now)
  {
    hide Capture, Include, IsRecord, Unusable, ValuesOf, Removals;
    var captured := Capture(reply.headers, r.headers);
    CaptureNeedsUsableVary(reply.headers, r.headers);
    if captured.Some? && reply.status == 200 {
      CapturedIsRecord(codec, reply.headers, reply.body, captured.value, r.headers, "authorization" in r.headers, now);
    }
    var p := RequestPolicy(codec, r);
    var stores := StoreOrRemove(codec, p, r, validation, reply, now);
    assert p.isCacheable && p.storeResponse && (exists op :: op in stores && op.Put?) ==> stores[0].Put?;
    if p.isCacheable && p.storeResponse && stores != [] {
      assert stores[0] in Handle(codec, r, validation, reply, now).ops;
    }
  }

  /** A call with another method than GET removes exactly what an unsafe method invalidates, and stores nothing. */
  lemma InvalidatesExactly(codec: Codec, r: Request, validation: Option<Entry>, reply: Reply, now: nat, op: Op)
    requires r.verb != "GET"
    ensures Handle(codec, r, validation, reply, now).answer == FromNetwork
    ensures op in Handle(codec, r, validation, reply, now).ops <==>
            && op.Remove? && (op.key == r.key || op.key in reply.invalidates)
            && r.verb != "HEAD" && r.verb != "OPTIONS" && r.verb != "TRACE" && 200 <= reply.status < 400
  {
    hide Removals;
    var keys := [r.key] + reply.invalidates;
    assert forall key :: key in keys <==> key == r.key || key in reply.invalidates;
  }

  /** The answer to the call shows that what is stored for it is out of date, and cannot replace it. */
  predicate Outdates(codec: Codec, r: Request, validation: Option<Entry>, reply: Reply, now: nat) {
    && r.verb == "GET" && r.emptyBody && !codec.requestDirectives(r.headers).noStore
    && !(validation.Some? && reply.status == 304)
    && (codec.responseDirectives(reply.headers).noStore ||
        (reply.status == 200 && !KeepingAllowed(codec, reply.headers, "authorization" in r.headers, now)))
  }

  /** A GET answer that is not stored, validates nothing and outdates nothing leaves the store alone. */
  lemma OthersLeaveStoreAlone(codec: Codec, r: Request, validation: Option<Entry>, reply: Reply, now: nat)
    requires r.verb == "GET" && !(validation.Some? && reply.status == 304)
    ensures var ops := Handle(codec, r, validation, reply, now).ops;
            if Outdates(codec, r, validation, reply, now) then |ops| == 1 && !ops[0].Put?
            else if r.emptyBody && !codec.requestDirectives(r.headers).noStore && reply.status == 200 then |ops| == 1 && ops[0].Put?
            else ops == []
  {
    hide Capture, Include, Unusable, ValuesOf, Removals, NewEntry;
    CaptureNeedsUsableVary(reply.headers, r.headers);
  }

  // --------------------------------------------------------------------------- validating

  /** The stored fields with those of the 304 put in. */
  ghost predicate IsUpdated(stored: Headers, validation: Headers, h: Headers) {
    forall name :: ValuesOf(h, name) ==
      if name in validation && name != "content-length" && name != "content-encoding" && name != "transfer-encoding"
      then validation[name]
      else if name == "age" then [] else ValuesOf(stored, name)
  }

  lemma MergeIsUpdate(stored: Headers, validation: Headers)
    ensures IsUpdated(stored, validation, Merge304(stored, validation))
  {
    hide Merge304;
    forall name ensures ValuesOf(Merge304(stored, validation), name) ==
      if name in validation && name != "content-length" && name != "content-encoding" && name != "transfer-encoding"
      then validation[name]
      else if name == "age" then [] else ValuesOf(stored, name)
    {
      MergeIsFieldwise(stored, validation, name);
    }
  }

  /**
   * What a 304 for a stored 200 does: the caller gets the stored body; the updated response is
   * stored again if its fields allow it, and otherwise the variant is removed.
   */
  lemma ValidatesExactly(codec: Codec, r: Request, e: Entry, reply: Reply, now: nat)
    requires r.verb == "GET" && r.emptyBody && e.status == 200 && reply.status == 304
    ensures var phase := Handle(codec, r, Some(e), reply, now);
            var h := Merge304(e.headers, reply.headers);
            && phase.answer == FromCache(e.body) && IsUpdated(e.headers, reply.headers, h)
            && if KeepingAllowed(codec, h, "authorization" in r.headers, now)
               then |phase.ops| == 1 && phase.ops[0].Put? && phase.ops[0].key == r.key
                    && IsRecord(codec, phase.ops[0].entry, h, e.body, r.headers, Tracks(e.vary, "authorization"), now)
               else phase.ops == [RemoveVariant(r.key, e.vary)]
  {
    hide Capture, Include, IsRecord, Unusable, ValuesOf, Removals, Merge304, IsUpdated, Tracks;
    var h := Merge304(e.headers, reply.headers);
    MergeIsUpdate(e.headers, reply.headers);
    CaptureNeedsUsableVary(h, r.headers);
    var captured := Capture(h, r.headers);
    if captured.Some? {
      CapturedIsRecord(codec, h, e.body, captured.value, r.headers, Tracks(e.vary, "authorization"), now);
    }
  }

  // ----------------------------------------------------------------- unusable answers

  lemma OutdatingRemoves(codec: Codec, r: Request, validation: Option<Entry>, reply: Reply, now: nat)
    requires Outdates(codec, r, validation, reply, now)
    ensures var ops := Handle(codec, r, validation, reply, now).ops;
            if "authorization" !in r.headers then ops == [Remove(r.key)]
            else if validation.Some? then ops == [RemoveVariant(r.key, validation.value.vary)]
            else ops == [RemoveMatching(r.key)]
  {
    hide Capture, Include, Unusable, ValuesOf, Removals;
    CaptureNeedsUsableVary(reply.headers, r.headers);
  }

  /** The call's `k`-th answer, and the finish of the call at `m` without an abort between. */
  ghost predicate Answers(config: Config, run: Run, k: nat, m: nat, id: nat) {
    && IsRun(config, run) && k < m < |run.actions|
    && run.actions[k].Respond? && run.actions[k].id == id && run.actions[m] == Finish(id)
    && (forall x :: k < x < m ==> run.actions[x] != Finish(id) && run.actions[x] != Abort(id))
    && id in run.states[k].calls && run.states[k].calls[id].phase.Waiting?
  }

  lemma RespondSetsOps(config: Config, run: Run, k: nat, m: nat, id: nat)
    requires Answers(config, run, k, m, id)
    ensures var c, x := run.states[k].calls[id], run.actions[k];
            id in run.states[k + 1].calls
            && run.states[k + 1].calls[id] == Call(c.request, Handle(config.codec, c.request, c.phase.validation, x.reply, x.now))
  {
    hide Handle;
    assert Step(config, run.states[k], run.actions[k], run.states[k + 1]);
  }

  /**
   * Before the caller without credentials gets an answer that outdates the stored ones, the key
   * has been out of the store; with credentials and a validated entry, that entry's variant.
   */
  lemma OutdatedIsRemoved(config: Config, run: Run, k: nat, m: nat, id: nat)
    requires Answers(config, run, k, m, id)
    requires var c, x := run.states[k].calls[id], run.actions[k]; Outdates(config.codec, c.request, c.phase.validation, x.reply, x.now)
    ensures var c := run.states[k].calls[id];
            && ("authorization" !in c.request.headers ==> exists e :: k < e <= m && c.request.key !in run.states[e].entries)
            && ("authorization" in c.request.headers && c.phase.validation.Some? ==>
                  exists e :: k < e <= m && forall f :: f in CandidatesAt(run.states[e].entries, c.request.key) ==>
                                f.vary != c.phase.validation.value.vary)
  {
    var c, x := run.states[k].calls[id], run.actions[k];
    RespondSetsOps(config, run, k, m, id);
    OutdatingRemoves(config.codec, c.request, c.phase.validation, x.reply, x.now);
    hide Handle, Outdates, IsRun;
    if "authorization" !in c.request.headers {
      var op := Remove(c.request.key);
      RemovedBeforeFinish(config, run, k + 1, m, id, op);
      var e :| k + 1 < e <= m && IsOut(run.states[e].entries, op);
    } else if c.phase.validation.Some? {
      var op := RemoveVariant(c.request.key, c.phase.validation.value.vary);
      RemovedBeforeFinish(config, run, k + 1, m, id, op);
      var e :| k + 1 < e <= m && IsOut(run.states[e].entries, op);
    }
  }

  lemma {:induction false} MatchingAreRemoved(key: string, candidates: seq<Entry>, h: Headers, e: Entry)
    requires e in candidates && Selects(e, h)
    ensures RemoveVariant(key, e.vary) in MatchingRemovals(key, candidates, AUTHORIZATION in h, h)
  {
    hide Selects, MatchesRequest;
    MatchIsSelection(candidates[0], h);
    if e == candidates[0] {
    } else {
      MatchingAreRemoved(key, candidates[1..], h, e);
    }
  }

  /** The candidates are read at some step before the end. */
  lemma {:induction false} MatchingIsRead(config: Config, run: Run, i: nat, m: nat, id: nat, r: Request) returns (j: nat)
    requires IsRun(config, run) && i <= m < |run.actions| && run.actions[m] == Finish(id)
    requires forall x :: i <= x < m ==> run.actions[x] != Finish(id) && run.actions[x] != Abort(id)
    requires id in run.states[i].calls && run.states[i].calls[id].request == r
    requires run.states[i].calls[id].phase.Working? && run.states[i].calls[id].phase.ops == [RemoveMatching(r.key)]
    ensures i <= j < m && run.actions[j] == Work(id) && id in run.states[j].calls
    ensures run.states[j].calls[id].phase.Working? && run.states[j].calls[id].phase.ops == [RemoveMatching(r.key)]
    ensures run.states[j].calls[id].request == r
    decreases m - i
  {
    hide Handle, LookUp, MatchingRemovals, PutLeadsTo, VariantRemoved;
    assert Step(config, run.states[i], run.actions[i], run.states[i + 1]);
    if run.actions[i] == Work(id) {
      j := i;
    } else {
      j := MatchingIsRead(config, run, i + 1, m, id, r);
    }
  }

  lemma ReadMakesPending(config: Config, run: Run, j: nat, id: nat, e: Entry)
    requires IsRun(config, run) && j < |run.actions| && run.actions[j] == Work(id) && id in run.states[j].calls
    requires var c := run.states[j].calls[id]; c.phase.Working? && c.phase.ops == [RemoveMatching(c.request.key)]
    requires var r := run.states[j].calls[id].request; e in CandidatesAt(run.states[j].entries, r.key) && Selects(e, r.headers)
    ensures RemovalPending(run.states[j + 1], id, RemoveVariant(run.states[j].calls[id].request.key, e.vary))
  {
    hide Selects, MatchingRemovals, OpLeadsTo;
    assert Step(config, run.states[j], run.actions[j], run.states[j + 1]);
    var r := run.states[j].calls[id].request;
    MatchingAreRemoved(r.key, CandidatesAt(run.states[j].entries, r.key), r.headers, e);
  }

  lemma ReadMatchIsRemoved(config: Config, run: Run, j: nat, m: nat, id: nat, e: Entry)
    requires IsRun(config, run) && j < m < |run.actions| && run.actions[j] == Work(id) && id in run.states[j].calls
    requires var c := run.states[j].calls[id]; c.phase.Working? && c.phase.ops == [RemoveMatching(c.request.key)]
    requires var r := run.states[j].calls[id].request; e in CandidatesAt(run.states[j].entries, r.key) && Selects(e, r.headers)
    requires run.actions[m] == Finish(id) && forall x :: j < x < m ==> run.actions[x] != Finish(id) && run.actions[x] != Abort(id)
    ensures exists n :: j < n <= m && IsOut(run.states[n].entries, RemoveVariant(run.states[j].calls[id].request.key, e.vary))
  {
    hide Selects, RemovalPending, IsOut;
    ReadMakesPending(config, run, j, id, e);
    RemovedBeforeFinish(config, run, j + 1, m, id, RemoveVariant(run.states[j].calls[id].request.key, e.vary));
  }

  /**
   * With credentials and nothing validated, the candidates are read at some point, and each of
   * them that the request selects has had its variant out of the store before the caller gets the answer.
   */
  lemma OutdatedMatchesAreRemoved(config: Config, run: Run, k: nat, m: nat, id: nat) returns (j: nat)
    requires Answers(config, run, k, m, id) && run.states[k].calls[id].phase.validation.None?
    requires "authorization" in run.states[k].calls[id].request.headers
    requires var c, x := run.states[k].calls[id], run.actions[k]; Outdates(config.codec, c.request, c.phase.validation, x.reply, x.now)
    ensures k < j < m
    ensures var r := run.states[k].calls[id].request;
            forall e :: e in CandidatesAt(run.states[j].entries, r.key) && Selects(e, r.headers) ==>
              exists n :: j < n <= m && forall f :: f in CandidatesAt(run.states[n].entries, r.key) ==> f.vary != e.vary
  {
    var c, x := run.states[k].calls[id], run.actions[k];
    var r := c.request;
    RespondSetsOps(config, run, k, m, id);
    OutdatingRemoves(config.codec, r, c.phase.validation, x.reply, x.now);
    hide Handle, Outdates, IsRun, Selects;
    j := MatchingIsRead(config, run, k + 1, m, id, r);
    forall e | e in CandidatesAt(run.states[j].entries, r.key) && Selects(e, r.headers)
      ensures exists n :: j < n <= m && forall f :: f in CandidatesAt(run.states[n].entries, r.key) ==> f.vary != e.vary
    {
      ReadMatchIsRemoved(config, run, j, m, id, e);
      var n :| j < n <= m && IsOut(run.states[n].entries, RemoveVariant(r.key, e.vary));
    }
  }
}
