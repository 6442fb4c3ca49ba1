/**
 * Calls through the cache, interleaved at every wait: the lookup, the network's answer and
 * each store operation of a call are separate steps. A history of network answers and of
 * cache answers is kept to say what was served and where it came from.
 */
module CacheRuns {
  import opened Wrappers
  import opened Cache
  import opened CacheStore

  datatype Config = Config(codec: Codec, maxEntries: nat, maxBodyBytes: nat)

  /**
   * A network answer, a validation of a stored response, and an answer from the cache, each with
   * the fields of the request it was for. `fields` are those of the response that may be kept.
   */
  datatype Event =
    | Fetched(key: string, request: Headers, fields: Headers, body: string)
    | Validated(key: string, request: Headers, fields: Headers, body: string)
    | Served(key: string, request: Headers, body: string)

  /** `RemoveMatching` reads the candidates and goes on to remove those that match the call. */
  datatype Op = Remove(key: string) | Put(key: string, entry: Entry) | RemoveVariant(key: string, vary: Vary) | RemoveMatching(key: string)

  datatype Answer = FromNetwork | FromCache(body: string)

  datatype Phase = Waiting(validation: Option<Entry>) | Working(ops: seq<Op>, answer: Answer)

  datatype Call = Call(request: Request, phase: Phase)

  datatype State = State(entries: Entries, calls: map<nat, Call>, history: seq<Event>)

  const INITIAL := State(map[], map[], [])

  datatype Action =
    | Begin(id: nat, request: Request, now: nat)
    | Respond(id: nat, reply: Reply, now: nat)
    | Work(id: nat)
    | Finish(id: nat)
    | Abort(id: nat)

  function AuthOf(h: Headers): seq<string> {
    ValuesOf(h, AUTHORIZATION)
  }

  // ------------------------------------------------------------------------- decisions

  /** What the lookup comes to: an answer at once, a 504, or a call to the network. */
  datatype Lookup = Hit(entry: Entry) | Unsatisfiable | Miss(validation: Option<Entry>)

  function LookUp(codec: Codec, entries: Entries, r: Request, now: nat): Lookup {
    var p := RequestPolicy(codec, r);
    if !p.isCacheable then Miss(None)
    else
      var found := LastMatch(CandidatesAt(entries, r.key), p.hasAuthorization, r.headers);
      if found.Some? && p.lookup && IsServable(found.value, p, now) then Hit(found.value)
      else if p.onlyIfCached then Unsatisfiable
      else Miss(if found.Some? && CanRevalidate(found.value, r.headers) then found else None)
  }

  predicate Invalidates(verb: string, status: nat) {
    verb !in {"GET", "HEAD", "OPTIONS", "TRACE"} && 200 <= status < 400
  }

  function Removals(keys: seq<string>): (ops: seq<Op>)
    ensures forall op :: op in ops ==> op.Remove? && op.key in keys
    ensures forall key :: key in keys ==> Remove(key) in ops
  {
    if keys == [] then []
    else
      var before := Removals(keys[..|keys| - 1]);
      var last := Remove(keys[|keys| - 1]);
      if last in before then before else before + [last]
  }

  /** A response that cannot be stored takes what it would have replaced with it. */
  function RemoveUnusable(r: Request, validation: Option<Entry>, authorized: bool): seq<Op> {
    if !authorized then [Remove(r.key)]
    else if validation.Some? then [RemoveVariant(r.key, validation.value.vary)]
    else [RemoveMatching(r.key)]
  }

  predicate IsValidated(p: Policy, validation: Option<Entry>, reply: Reply) {
    p.isCacheable && validation.Some? && reply.status == 304
  }

  function StoreOrRemove(codec: Codec, p: Policy, r: Request, validation: Option<Entry>, reply: Reply, now: nat): seq<Op> {
    var unusable := RemoveUnusable(r, validation, p.hasAuthorization);
    if codec.responseDirectives(reply.headers).noStore then unusable
    else if !IsStorable(codec, reply.headers, reply.status, now, p.hasAuthorization) then
      if reply.status == 200 then unusable else []
    else
      match Capture(reply.headers, r.headers)
      case None => unusable
      case Some(captured) =>
        var vary := if p.hasAuthorization then Include(captured, AUTHORIZATION, r.headers) else captured;
        [Put(r.key, NewEntry(codec, reply.status, reply.headers, reply.body, vary, now))]
  }

  /** The store operations a network answer leads to, and what the caller gets. */
  function Handle(codec: Codec, r: Request, validation: Option<Entry>, reply: Reply, now: nat): (phase: Phase)
    ensures phase.Working? && (phase.answer.FromCache? ==> validation.Some?)
  {
    var p := RequestPolicy(codec, r);
    var invalidations := if Invalidates(r.verb, reply.status) then Removals([r.key] + reply.invalidates) else [];
    if !p.isCacheable then Working(invalidations, FromNetwork)
    else if IsValidated(p, validation, reply) then
      var (freshened, store) := Freshen(codec, validation.value, reply.headers, r.headers, now);
      Working(invalidations + [if store then Put(r.key, freshened) else RemoveVariant(r.key, validation.value.vary)],
              FromCache(freshened.body))
    else if !p.storeResponse then Working(invalidations, FromNetwork)
    else Working(invalidations + StoreOrRemove(codec, p, r, validation, reply, now), FromNetwork)
  }

  /** The variants among the candidates that match the request, as removals. */
  function MatchingRemovals(key: string, candidates: seq<Entry>, authorized: bool, h: Headers): (ops: seq<Op>)
    ensures forall op :: op in ops ==> op.RemoveVariant?
  {
    if candidates == [] then []
    else
      var rest := MatchingRemovals(key, candidates[1..], authorized, h);
      if MatchesRequest(candidates[0], authorized, h) then [RemoveVariant(key, candidates[0].vary)] + rest else rest
  }

  // ------------------------------------------------------------------------------ steps

  predicate StepBegin(config: Config, s: State, id: nat, r: Request, now: nat, s': State) {
    && id !in s.calls
    && match LookUp(config.codec, s.entries, r, now)
       case Hit(e) => s' == s.(history := s.history + [Served(r.key, r.headers, e.body)])
       case Unsatisfiable => s' == s
       case Miss(validation) => s' == s.(calls := s.calls[id := Call(r, Waiting(validation))])
  }

  /** What goes into the history when the network answers. */
  function Answering(phase: Phase, r: Request, validation: Option<Entry>, reply: Reply): Event
    requires phase.Working? && (phase.answer.FromCache? ==> validation.Some?)
  {
    match phase.answer
    case FromNetwork => Fetched(r.key, r.headers, reply.headers, reply.body)
    case FromCache(body) => Validated(r.key, r.headers, Merge304(validation.value.headers, reply.headers), body)
  }

  predicate StepRespond(config: Config, s: State, id: nat, reply: Reply, now: nat, s': State) {
    && id in s.calls && s.calls[id].phase.Waiting?
    && var r, validation := s.calls[id].request, s.calls[id].phase.validation;
       var phase := Handle(config.codec, r, validation, reply, now);
       s' == State(s.entries, s.calls[id := Call(r, phase)], s.history + [Answering(phase, r, validation, reply)])
  }

  /** The store after an operation; a put may evict. */
  ghost predicate OpLeadsTo(config: Config, entries: Entries, op: Op, after: Entries) {
    match op
    case Remove(key) => after == entries - {key}
    case Put(key, e) => PutLeadsTo(entries, key, e, config.maxEntries, config.maxBodyBytes, after)
    case RemoveVariant(key, vary) => after == VariantRemoved(entries, key, vary)
    case RemoveMatching(key) => after == entries
  }

  /** What is left to do after the first operation. */
  function OpsAfter(config: Config, entries: Entries, r: Request, ops: seq<Op>): seq<Op>
    requires ops != []
  {
    match ops[0]
    case RemoveMatching(key) =>
      MatchingRemovals(key, CandidatesAt(entries, key), AUTHORIZATION in r.headers, r.headers) + ops[1..]
    case _ => ops[1..]
  }

  ghost predicate StepWork(config: Config, s: State, id: nat, s': State) {
    && id in s.calls && s.calls[id].phase.Working? && s.calls[id].phase.ops != []
    && var c := s.calls[id];
       && OpLeadsTo(config, s.entries, c.phase.ops[0], s'.entries)
       && s'.calls == s.calls[id := c.(phase := c.phase.(ops := OpsAfter(config, s.entries, c.request, c.phase.ops)))]
       && s'.history == s.history
  }

  predicate StepFinish(s: State, id: nat, s': State) {
    && id in s.calls && s.calls[id].phase.Working? && s.calls[id].phase.ops == []
    && var c := s.calls[id];
       s' == State(s.entries, s.calls - {id},
                   match c.phase.answer
                   case FromNetwork => s.history
                   case FromCache(body) => s.history + [Served(c.request.key, c.request.headers, body)])
  }

  ghost predicate Step(config: Config, s: State, action: Action, s': State) {
    match action
    case Begin(id, r, now) => StepBegin(config, s, id, r, now, s')
    case Respond(id, reply, now) => StepRespond(config, s, id, reply, now, s')
    case Work(id) => StepWork(config, s, id, s')
    case Finish(id) => StepFinish(s, id, s')
    case Abort(id) => id in s.calls && s' == s.(calls := s.calls - {id})
  }

  datatype Run = Run(states: seq<State>, actions: seq<Action>)

  ghost predicate IsRun(config: Config, run: Run) {
    && |run.states| == |run.actions| + 1 && run.states[0] == INITIAL
    && forall k :: 0 <= k < |run.actions| ==> Step(config, run.states[k], run.actions[k], run.states[k + 1])
  }

  // -------------------------------------------------------------------------- invariant

  /** A network answer with this body was given for this key and these credentials. */
  ghost predicate WasFetched(history: seq<Event>, key: string, auth: seq<string>, body: string) {
    exists e :: e in history && e.Fetched? && e.key == key && AuthOf(e.request) == auth && e.body == body
  }

  /** The two requests agree on every field that the response's `Vary` lists. */
  ghost predicate Agree(fields: Headers, h: Headers, h': Headers) {
    var names := VaryNames(ValuesOf(fields, "vary"), []);
    names.Some? && forall n :: n in names.value ==> ValuesOf(h, n) == ValuesOf(h', n)
  }

  /** `e` stored or validated a response for `key`: the request later ones are compared with. */
  predicate IsReference(e: Event, key: string, body: string) {
    (e.Fetched? || e.Validated?) && e.key == key && e.body == body
  }

  /** The request agrees with one that stored or validated this body, on every field that response varies by. */
  ghost predicate WasSelected(history: seq<Event>, key: string, h: Headers, body: string) {
    exists e :: e in history && IsReference(e, key, body) && Agree(e.fields, e.request, h)
  }

  /** The credentials an entry was fetched with: those it tracks, or none. */
  predicate CarriesAuth(vary: Vary, auth: seq<string>) {
    && (forall i :: 0 <= i < |vary| && vary[i].name == AUTHORIZATION ==> vary[i].values == auth)
    && (!Tracks(vary, AUTHORIZATION) ==> auth == [])
  }

  ghost predicate Backed(history: seq<Event>, key: string, e: Entry) {
    exists auth :: CarriesAuth(e.vary, auth) && WasFetched(history, key, auth, e.body)
  }

  /** The entry tracks, with the reference request's values, every field its response varies by. */
  ghost predicate SelectedBy(e: Entry, h: Headers) {
    var names := VaryNames(ValuesOf(e.headers, "vary"), []);
    VaryMatches(e.vary, h) && names.Some? && forall n :: n in names.value ==> Tracks(e.vary, n)
  }

  ghost predicate Referenced(history: seq<Event>, key: string, e: Entry) {
    exists x :: x in history && IsReference(x, key, e.body) && x.fields == e.headers && SelectedBy(e, x.request)
  }

  /** What may be kept: see `IsStorable`; for credentials, only what the response allows. */
  predicate Keepable(codec: Codec, e: Entry) {
    && e.status == 200 && "set-cookie" !in e.headers && !codec.responseDirectives(e.headers).noStore
    && e.lifetime == codec.lifetime(e.headers, e.storedAt) && e.initialAge == codec.age(e.headers, e.storedAt)
    && e.mustValidate == codec.responseDirectives(e.headers).noCache
    && e.mustRevalidate == codec.responseDirectives(e.headers).mustRevalidate
    && (e.mustValidate || e.lifetime == 0 ==> "etag" in e.headers || "last-modified" in e.headers)
    && (!CarriesAuth(e.vary, []) ==> AllowsAuthorizedStorage(codec.responseDirectives(e.headers)))
  }

  ghost predicate Good(codec: Codec, history: seq<Event>, key: string, e: Entry) {
    Backed(history, key, e) && Referenced(history, key, e) && Keepable(codec, e)
  }

  ghost predicate StoreGood(codec: Codec, history: seq<Event>, entries: Entries) {
    forall key, e :: key in entries && e in entries[key] ==> Good(codec, history, key, e)
  }

  ghost predicate OpGood(codec: Codec, history: seq<Event>, op: Op) {
    op.Put? ==> Good(codec, history, op.key, op.entry)
  }

  /** The body was fetched for this key and credentials, and selected for a request that agrees. */
  ghost predicate MayGet(history: seq<Event>, key: string, h: Headers, body: string) {
    WasFetched(history, key, AuthOf(h), body) && WasSelected(history, key, h, body)
  }

  ghost predicate CallGood(codec: Codec, history: seq<Event>, c: Call) {
    match c.phase
    case Waiting(None) => true
    case Waiting(Some(e)) => Good(codec, history, c.request.key, e) && MatchesRequest(e, AUTHORIZATION in c.request.headers, c.request.headers)
    case Working(ops, answer) =>
      && (forall op :: op in ops ==> OpGood(codec, history, op))
      && (answer.FromCache? ==> MayGet(history, c.request.key, c.request.headers, answer.body))
  }

  /** Every validation and every answer from the cache was for a request that may get the body. */
  ghost predicate Isolated(history: seq<Event>) {
    forall j :: 0 <= j < |history| && !history[j].Fetched? ==> MayGet(history[..j], history[j].key, history[j].request, history[j].body)
  }

  ghost predicate Inv(config: Config, s: State) {
    && StoreGood(config.codec, s.history, s.entries) && Sound(s.entries)
    && (forall id :: id in s.calls ==> CallGood(config.codec, s.history, s.calls[id]))
    && Isolated(s.history)
  }

  // --------------------------------------------------------------------------- credentials

  /** A matching entry was fetched with exactly the request's credentials. */
  lemma MatchMeansSameAuth(e: Entry, h: Headers, auth: seq<string>)
    requires MatchesRequest(e, AUTHORIZATION in h, h) && CarriesAuth(e.vary, auth)
    ensures auth == AuthOf(h)
  {
    if Tracks(e.vary, AUTHORIZATION) {
      var i :| 0 <= i < |e.vary| && e.vary[i].name == AUTHORIZATION;
    }
  }

  /** A request that matches an entry agrees with the entry's reference request on all that selects it. */
  lemma MatchMeansAgreement(e: Entry, h: Headers, h': Headers)
    requires SelectedBy(e, h) && VaryMatches(e.vary, h')
    ensures Agree(e.headers, h, h')
  {
    var names := VaryNames(ValuesOf(e.headers, "vary"), []).value;
    forall n | n in names ensures ValuesOf(h, n) == ValuesOf(h', n) {
      var i :| 0 <= i < |e.vary| && e.vary[i].name == n;
    }
  }

  lemma MatchMayGet(history: seq<Event>, key: string, e: Entry, h: Headers)
    requires Backed(history, key, e) && Referenced(history, key, e) && MatchesRequest(e, AUTHORIZATION in h, h)
    ensures MayGet(history, key, h, e.body)
  {
    hide CarriesAuth, SelectedBy, Agree, Tracks, VaryMatches, WasFetched;
    var auth :| CarriesAuth(e.vary, auth) && WasFetched(history, key, auth, e.body);
    MatchMeansSameAuth(e, h, auth);
    var x :| x in history && IsReference(x, key, e.body) && x.fields == e.headers && SelectedBy(e, x.request);
    MatchMeansAgreement(e, x.request, h);
  }

  /** What is captured for a request carries that request's credentials, once they are tracked or absent. */
  lemma CapturedCarriesAuth(vary: Vary, h: Headers)
    requires VaryMatches(vary, h) && (AUTHORIZATION in h ==> Tracks(vary, AUTHORIZATION))
    ensures CarriesAuth(vary, AuthOf(h))
    ensures !CarriesAuth(vary, []) ==> AUTHORIZATION in h
  {
  }

  /** An entry captured for a request carries its credentials and is selected by it. */
  lemma CapturedIsBacked(e: Entry, captured: Vary, h: Headers)
    requires Capture(e.headers, h) == Some(captured)
    requires e.vary == Include(captured, AUTHORIZATION, h) || (e.vary == captured && AUTHORIZATION !in h)
    ensures SelectedBy(e, h) && CarriesAuth(e.vary, AuthOf(h)) && (!CarriesAuth(e.vary, []) ==> AUTHORIZATION in h)
  {
    CaptureMatches(e.headers, h);
    IncludeMatches(captured, AUTHORIZATION, h);
    IncludeTracks(captured, AUTHORIZATION, h);
    CapturedCarriesAuth(e.vary, h);
    hide Include, CarriesAuth, VaryNames;
    var names := VaryNames(ValuesOf(e.headers, "vary"), []).value;
    forall n | n in names ensures Tracks(e.vary, n) {
      var i :| 0 <= i < |names| && names[i] == n;
      assert captured[i].name == n;
      assert Tracks(captured, n);
    }
  }

  lemma WasFetchedGrows(history: seq<Event>, event: Event, key: string, auth: seq<string>, body: string)
    requires WasFetched(history, key, auth, body)
    ensures WasFetched(history + [event], key, auth, body)
  {
    var e :| e in history && e.Fetched? && e.key == key && AuthOf(e.request) == auth && e.body == body;
    assert e in history + [event];
  }

  /** Freshening keeps body, key and credentials; the validating request is the new reference. */
  lemma FreshenedIsGood(codec: Codec, history: seq<Event>, key: string, e: Entry, validation: Headers, h: Headers, now: nat)
    requires Good(codec, history, key, e) && MatchesRequest(e, AUTHORIZATION in h, h)
    ensures var (freshened, store) := Freshen(codec, e, validation, h, now);
            && freshened.body == e.body
            && (store ==> Good(codec, history + [Validated(key, h, Merge304(e.headers, validation), e.body)], key, freshened))
  {
    hide Tracks, VaryMatches, Merge304, Include, Capture, CarriesAuth, SelectedBy;
    var (freshened, store) := Freshen(codec, e, validation, h, now);
    var event := Validated(key, h, Merge304(e.headers, validation), e.body);
    var history' := history + [event];
    MatchMayGet(history, key, e, h);
    WasFetchedGrows(history, event, key, AuthOf(h), e.body);
    if store {
      CapturedIsBacked(freshened, Capture(freshened.headers, h).value, h);
      assert event in history';
      assert Referenced(history', key, freshened);
      assert Backed(history', key, freshened);
    }
  }

  lemma NewEntryIsGood(codec: Codec, history: seq<Event>, r: Request, validation: Option<Entry>, reply: Reply, now: nat)
    requires Fetched(r.key, r.headers, reply.headers, reply.body) in history
    ensures forall op :: op in StoreOrRemove(codec, RequestPolicy(codec, r), r, validation, reply, now) ==> OpGood(codec, history, op)
  {
    hide Tracks, VaryMatches, Include, Capture, CarriesAuth, SelectedBy;
    var captured := Capture(reply.headers, r.headers);
    if captured.Some? && IsStorable(codec, reply.headers, reply.status, now, AUTHORIZATION in r.headers) {
      var vary := if AUTHORIZATION in r.headers then Include(captured.value, AUTHORIZATION, r.headers) else captured.value;
      var e := NewEntry(codec, reply.status, reply.headers, reply.body, vary, now);
      CapturedIsBacked(e, captured.value, r.headers);
      assert WasFetched(history, r.key, AuthOf(r.headers), reply.body);
      assert Referenced(history, r.key, e);
      assert Good(codec, history, r.key, e);
    }
  }

  // --------------------------------------------------------------------- history only grows

  lemma MayGetGrows(history: seq<Event>, event: Event, key: string, h: Headers, body: string)
    requires MayGet(history, key, h, body)
    ensures MayGet(history + [event], key, h, body)
  {
    hide Agree, WasFetched;
    WasFetchedGrows(history, event, key, AuthOf(h), body);
    var e :| e in history && IsReference(e, key, body) && Agree(e.fields, e.request, h);
    assert e in history + [event];
  }

  lemma GoodGrows(codec: Codec, history: seq<Event>, event: Event, key: string, e: Entry)
    requires Good(codec, history, key, e)
    ensures Good(codec, history + [event], key, e)
  {
    hide CarriesAuth, Keepable, SelectedBy, WasFetched;
    var auth :| CarriesAuth(e.vary, auth) && WasFetched(history, key, auth, e.body);
    WasFetchedGrows(history, event, key, auth, e.body);
    var x :| x in history && IsReference(x, key, e.body) && x.fields == e.headers && SelectedBy(e, x.request);
    assert x in history + [event];
  }

  lemma CallGoodGrows(codec: Codec, history: seq<Event>, event: Event, c: Call)
    requires CallGood(codec, history, c)
    ensures CallGood(codec, history + [event], c)
  {
    hide Good, MatchesRequest, MayGet;
    match c.phase {
      case Waiting(None) =>
      case Waiting(Some(e)) => GoodGrows(codec, history, event, c.request.key, e);
      case Working(ops, answer) =>
        forall op | op in ops ensures OpGood(codec, history + [event], op) {
          if op.Put? { GoodGrows(codec, history, event, op.key, op.entry); }
        }
        if answer.FromCache? { MayGetGrows(history, event, c.request.key, c.request.headers, answer.body); }
    }
  }

  lemma IsolatedGrows(history: seq<Event>, event: Event)
    requires Isolated(history) && (!event.Fetched? ==> MayGet(history, event.key, event.request, event.body))
    ensures Isolated(history + [event])
  {
    hide MayGet;
    var history' := history + [event];
    forall j | 0 <= j < |history'| && !history'[j].Fetched?
      ensures MayGet(history'[..j], history'[j].key, history'[j].request, history'[j].body)
    {
      assert history'[..j] == history[..j];
      assert history[..|history|] == history;
    }
  }

  lemma InvGrows(config: Config, s: State, event: Event)
    requires Inv(config, s)
    requires !event.Fetched? ==> MayGet(s.history, event.key, event.request, event.body)
    ensures Inv(config, s.(history := s.history + [event]))
  {
    hide Good, CallGood, Sound, MayGet, Isolated;
    var history' := s.history + [event];
    forall key, e | key in s.entries && e in s.entries[key] ensures Good(config.codec, history', key, e) {
      GoodGrows(config.codec, s.history, event, key, e);
    }
    forall id | id in s.calls ensures CallGood(config.codec, history', s.calls[id]) {
      CallGoodGrows(config.codec, s.history, event, s.calls[id]);
    }
    IsolatedGrows(s.history, event);
  }

  // ------------------------------------------------------------------------- every step

  lemma PolicyFacts(codec: Codec, r: Request)
    ensures RequestPolicy(codec, r).hasAuthorization == (AUTHORIZATION in r.headers)
  {
  }

  lemma GoodMayGet(codec: Codec, history: seq<Event>, key: string, e: Entry, h: Headers)
    requires Good(codec, history, key, e) && MatchesRequest(e, AUTHORIZATION in h, h)
    ensures MayGet(history, key, h, e.body)
  {
    hide Backed, Referenced, MayGet, MatchesRequest;
    MatchMayGet(history, key, e, h);
  }

  lemma BeginKeepsInv(config: Config, s: State, id: nat, r: Request, now: nat, s': State)
    requires Inv(config, s) && StepBegin(config, s, id, r, now, s')
    ensures Inv(config, s')
  {
    hide Good, MatchesRequest, IsServable, CanRevalidate, RequestPolicy, LastMatch, Sound, Isolated;
    PolicyFacts(config.codec, r);
    var candidates := CandidatesAt(s.entries, r.key);
    var found := LastMatch(candidates, AUTHORIZATION in r.headers, r.headers);
    LastMatchIsNewest(candidates, AUTHORIZATION in r.headers, r.headers);
    if found.Some? {
      assert found.value in candidates;
      assert Good(config.codec, s.history, r.key, found.value);
      GoodMayGet(config.codec, s.history, r.key, found.value, r.headers);
    }
    var lookup := LookUp(config.codec, s.entries, r, now);
    if lookup.Hit? {
      InvGrows(config, s, Served(r.key, r.headers, lookup.entry.body));
    }
  }

  lemma HandleIsGood(codec: Codec, history: seq<Event>, c: Call, reply: Reply, now: nat)
    requires c.phase.Waiting? && CallGood(codec, history, c)
    ensures var phase := Handle(codec, c.request, c.phase.validation, reply, now);
            var event := Answering(phase, c.request, c.phase.validation, reply);
            && (!event.Fetched? ==> MayGet(history, event.key, event.request, event.body))
            && CallGood(codec, history + [event], Call(c.request, phase))
  {
    hide Good, MatchesRequest, RequestPolicy, StoreOrRemove, Freshen, Removals, MayGet;
    var r, validation := c.request, c.phase.validation;
    var event := Answering(Handle(codec, r, validation, reply, now), r, validation, reply);
    if IsValidated(RequestPolicy(codec, r), validation, reply) {
      var e := validation.value;
      FreshenedIsGood(codec, history, r.key, e, reply.headers, r.headers, now);
      GoodMayGet(codec, history, r.key, e, r.headers);
      MayGetGrows(history, event, r.key, r.headers, e.body);
    } else {
      assert event in history + [event];
      NewEntryIsGood(codec, history + [event], r, validation, reply, now);
    }
  }

  lemma RespondKeepsInv(config: Config, s: State, id: nat, reply: Reply, now: nat, s': State)
    requires Inv(config, s) && StepRespond(config, s, id, reply, now, s')
    ensures Inv(config, s')
  {
    hide StoreGood, CallGood, Sound, Isolated, Handle, MayGet, Answering;
    HandleIsGood(config.codec, s.history, s.calls[id], reply, now);
    var c := s.calls[id];
    var phase := Handle(config.codec, c.request, c.phase.validation, reply, now);
    InvGrows(config, s, Answering(phase, c.request, c.phase.validation, reply));
  }

  lemma NoVariants()
    ensures DistinctVariants([])
  {
  }

  /** Store operations only add what is good and only leave out whole candidates. */
  lemma OpKeepsStore(config: Config, history: seq<Event>, entries: Entries, op: Op, after: Entries)
    requires StoreGood(config.codec, history, entries) && Sound(entries) && OpGood(config.codec, history, op)
    requires OpLeadsTo(config, entries, op, after)
    ensures StoreGood(config.codec, history, after) && Sound(after)
  {
    hide Good, DistinctVariants, Replace, Without, WithinLimits;
    match op {
      case Remove(key) =>
      case Put(key, e) => NoVariants(); ReplaceMembers(CandidatesAt(entries, key), e); ReplaceVariants(CandidatesAt(entries, key), e);
      case RemoveVariant(key, vary) => if key in entries { WithoutMembers(entries[key], vary); }
      case RemoveMatching(key) =>
    }
  }

  lemma WorkKeepsInv(config: Config, s: State, id: nat, s': State)
    requires Inv(config, s) && StepWork(config, s, id, s')
    ensures Inv(config, s')
  {
    hide StoreGood, Sound, Isolated, OpLeadsTo, MatchingRemovals, Good, MatchesRequest;
    var c := s.calls[id];
    OpKeepsStore(config, s.history, s.entries, c.phase.ops[0], s'.entries);
    var ops' := OpsAfter(config, s.entries, c.request, c.phase.ops);
    forall op | op in ops' ensures OpGood(config.codec, s.history, op) {
      assert op.RemoveVariant? || op in c.phase.ops;
    }
    assert CallGood(config.codec, s.history, s'.calls[id]);
  }

  lemma FinishKeepsInv(config: Config, s: State, id: nat, s': State)
    requires Inv(config, s) && StepFinish(s, id, s')
    ensures Inv(config, s')
  {
    hide StoreGood, Sound, Isolated;
    var c := s.calls[id];
    assert CallGood(config.codec, s.history, c);
    if c.phase.answer.FromCache? {
      hide CallGood;
      InvGrows(config, s, Served(c.request.key, c.request.headers, c.phase.answer.body));
    }
  }

  lemma StepKeepsInv(config: Config, s: State, action: Action, s': State)
    requires Inv(config, s) && Step(config, s, action, s')
    ensures Inv(config, s')
  {
    hide StepBegin, StepRespond, StepWork, StepFinish, StoreGood, Sound, CallGood, Isolated;
    match action {
      case Begin(id, r, now) => BeginKeepsInv(config, s, id, r, now, s');
      case Respond(id, reply, now) => RespondKeepsInv(config, s, id, reply, now, s');
      case Work(id) => WorkKeepsInv(config, s, id, s');
      case Finish(id) => FinishKeepsInv(config, s, id, s');
      case Abort(id) =>
    }
  }

  lemma InitiallyInv(config: Config)
    ensures Inv(config, INITIAL)
  {
  }

  lemma {:induction false} EveryRunKeepsInv(config: Config, run: Run, k: nat)
    requires IsRun(config, run) && k < |run.states|
    ensures Inv(config, run.states[k])
  {
    hide Step, Inv;
    if k == 0 {
      InitiallyInv(config);
    } else {
      EveryRunKeepsInv(config, run, k - 1);
      assert Step(config, run.states[k - 1], run.actions[k - 1], run.states[k - 1 + 1]);
      StepKeepsInv(config, run.states[k - 1], run.actions[k - 1], run.states[k]);
    }
  }

  /**
   * Whatever calls interleave and whatever the network answers: a body served from the cache,
   * directly or after a 304, was fetched before for the same key by a request with the same
   * `Authorization` values, or with none if the served request has none.
   */
  lemma CacheIsIsolated(config: Config, run: Run, k: nat, j: nat)
    requires IsRun(config, run) && k < |run.states| && j < |run.states[k].history| && run.states[k].history[j].Served?
    ensures var h := run.states[k].history;
            exists i :: 0 <= i < j && h[i].Fetched? && h[i].key == h[j].key && h[i].body == h[j].body && AuthOf(h[i].request) == AuthOf(h[j].request)
  {
    hide Step, WasSelected, AuthOf;
    EveryRunKeepsInv(config, run, k);
    var h := run.states[k].history;
    assert MayGet(h[..j], h[j].key, h[j].request, h[j].body);
    var e :| e in h[..j] && e.Fetched? && e.key == h[j].key && AuthOf(e.request) == AuthOf(h[j].request) && e.body == h[j].body;
    var i :| 0 <= i < |h[..j]| && h[..j][i] == e;
    assert h[i] == e;
  }

  /**
   * And it was stored or validated before by a request that agrees with the served one on every
   * field that response varies by.
   */
  lemma CacheRespectsVary(config: Config, run: Run, k: nat, j: nat)
    requires IsRun(config, run) && k < |run.states| && j < |run.states[k].history| && !run.states[k].history[j].Fetched?
    ensures var h := run.states[k].history;
            exists i :: 0 <= i < j && IsReference(h[i], h[j].key, h[j].body) && Agree(h[i].fields, h[i].request, h[j].request)
  {
    hide Step, WasFetched, Agree;
    EveryRunKeepsInv(config, run, k);
    var h := run.states[k].history;
    assert MayGet(h[..j], h[j].key, h[j].request, h[j].body);
    var e :| e in h[..j] && IsReference(e, h[j].key, h[j].body) && Agree(e.fields, e.request, h[j].request);
    var i :| 0 <= i < |h[..j]| && h[..j][i] == e;
    assert h[i] == e;
  }

  /** The response varies by `name`. */
  predicate ListedBy(fields: Headers, name: string) {
    var names := VaryNames(ValuesOf(fields, "vary"), []);
    names.Some? && name in names.value
  }

  /**
   * A 304 whose fields make the response vary by a new name moves the reference: the stored entry
   * then matches requests like the validating one, and no longer the request that fetched it.
   */
  lemma ValidationMovesReference(codec: Codec, e: Entry, validation: Headers, h: Headers, h': Headers, now: nat, name: string)
    requires Freshen(codec, e, validation, h', now).1 && ListedBy(Merge304(e.headers, validation), name)
    requires ValuesOf(h, name) != ValuesOf(h', name)
    requires AUTHORIZATION in h' ==> Tracks(e.vary, AUTHORIZATION)
    ensures var freshened := Freshen(codec, e, validation, h', now).0;
            MatchesRequest(freshened, AUTHORIZATION in h', h') && !MatchesRequest(freshened, AUTHORIZATION in h, h)
  {
    hide VaryNames, Include, Merge304;
    var freshened := Freshen(codec, e, validation, h', now).0;
    var captured := Capture(freshened.headers, h').value;
    CaptureMatches(freshened.headers, h');
    IncludeMatches(captured, AUTHORIZATION, h');
    IncludeTracks(captured, AUTHORIZATION, h');
    var names := VaryNames(ValuesOf(freshened.headers, "vary"), []).value;
    var i :| 0 <= i < |names| && names[i] == name;
    assert captured[i].name == name;
    assert Tracks(captured, name) && Tracks(freshened.vary, name);
    var x :| 0 <= x < |freshened.vary| && freshened.vary[x].name == name;
  }

  /**
   * Every stored response was fetched for its key, may be stored at all, and if the request
   * that fetched it had credentials, the response allowed storing it.
   */
  lemma StoredResponsesMayBeStored(config: Config, run: Run, k: nat, key: string, e: Entry)
    requires IsRun(config, run) && k < |run.states| && key in run.states[k].entries && e in run.states[k].entries[key]
    ensures var d := config.codec.responseDirectives(e.headers);
            && e.status == 200 && "set-cookie" !in e.headers && !d.noStore
            && e.lifetime == config.codec.lifetime(e.headers, e.storedAt) && e.initialAge == config.codec.age(e.headers, e.storedAt)
            && e.mustValidate == d.noCache && e.mustRevalidate == d.mustRevalidate
            && (d.noCache || e.lifetime == 0 ==> "etag" in e.headers || "last-modified" in e.headers)
            && exists x :: x in run.states[k].history && x.Fetched? && x.key == key && x.body == e.body
                 && (AuthOf(x.request) != [] ==> d.isPublic || d.sMaxage.Some? || d.mustRevalidate)
  {
    hide Step, Isolated, CallGood, Sound, Referenced;
    EveryRunKeepsInv(config, run, k);
    var history := run.states[k].history;
    assert Good(config.codec, history, key, e);
    var auth :| CarriesAuth(e.vary, auth) && WasFetched(history, key, auth, e.body);
    if auth != [] {
      var i :| 0 <= i < |e.vary| && e.vary[i].name == AUTHORIZATION;
      assert !CarriesAuth(e.vary, []);
    }
  }

  // ------------------------------------------------------------------------ invalidation

  /** The call has yet to carry out the removal. */
  predicate RemovalPending(s: State, id: nat, op: Op) {
    id in s.calls && s.calls[id].phase.Working? && op in s.calls[id].phase.ops
  }

  /** What the removal is for is not in the store. */
  predicate IsOut(entries: Entries, op: Op) {
    match op
    case Remove(key) => key !in entries
    case RemoveVariant(key, vary) => forall e :: e in CandidatesAt(entries, key) ==> e.vary != vary
    case _ => false
  }

  lemma RemovalStaysPending(config: Config, s: State, action: Action, s': State, id: nat, op: Op)
    requires Step(config, s, action, s') && RemovalPending(s, id, op) && action != Finish(id) && action != Abort(id)
    requires op.Remove? || op.RemoveVariant?
    ensures RemovalPending(s', id, op) || IsOut(s'.entries, op)
  {
    hide Handle, LookUp, MatchingRemovals, PutLeadsTo, Without;
    if action == Work(id) {
      var ops := s.calls[id].phase.ops;
      if ops[0] == op {
        if op.RemoveVariant? && op.key in s.entries {
          WithoutMembers(s.entries[op.key], op.vary);
        }
      } else {
        assert op in ops[1..];
      }
    }
  }

  lemma {:induction false} RemovedOrPending(config: Config, run: Run, i: nat, j: nat, id: nat, op: Op)
    requires IsRun(config, run) && i <= j < |run.states| && RemovalPending(run.states[i], id, op) && (op.Remove? || op.RemoveVariant?)
    requires forall x :: i <= x < j ==> run.actions[x] != Finish(id) && run.actions[x] != Abort(id)
    ensures RemovalPending(run.states[j], id, op) || exists e :: i < e <= j && IsOut(run.states[e].entries, op)
    decreases j
  {
    hide Step, RemovalPending, IsOut;
    if i == j {
    } else {
      RemovedOrPending(config, run, i, j - 1, id, op);
      if RemovalPending(run.states[j - 1], id, op) {
        assert Step(config, run.states[j - 1], run.actions[j - 1], run.states[j - 1 + 1]);
        RemovalStaysPending(config, run.states[j - 1], run.actions[j - 1], run.states[j], id, op);
      }
    }
  }

  /** A call does not finish before its removals are carried out. */
  lemma RemovedBeforeFinish(config: Config, run: Run, i: nat, m: nat, id: nat, op: Op)
    requires IsRun(config, run) && i <= m < |run.actions| && RemovalPending(run.states[i], id, op) && (op.Remove? || op.RemoveVariant?)
    requires run.actions[m] == Finish(id) && forall x :: i <= x < m ==> run.actions[x] != Finish(id) && run.actions[x] != Abort(id)
    ensures exists e :: i < e <= m && IsOut(run.states[e].entries, op)
  {
    RemovedOrPending(config, run, i, m, id, op);
    assert Step(config, run.states[m], run.actions[m], run.states[m + 1]);
    hide IsOut;
  }

  /**
   * When a call with an unsafe method is answered with success or a redirection, then before
   * the caller gets the answer each key it invalidates has been out of the store.
   */
  lemma UnsafeCallsInvalidate(config: Config, run: Run, k: nat, m: nat, id: nat, key: string)
    requires IsRun(config, run) && k < m < |run.actions| && run.actions[k].Respond? && run.actions[k].id == id && run.actions[m] == Finish(id)
    requires forall x :: k < x < m ==> run.actions[x] != Finish(id) && run.actions[x] != Abort(id)
    requires id in run.states[k].calls && 200 <= run.actions[k].reply.status < 400
    requires run.states[k].calls[id].request.verb != "GET" && run.states[k].calls[id].request.verb != "HEAD"
    requires run.states[k].calls[id].request.verb != "OPTIONS" && run.states[k].calls[id].request.verb != "TRACE"
    requires key == run.states[k].calls[id].request.key || key in run.actions[k].reply.invalidates
    ensures exists e :: k < e <= m && key !in run.states[e].entries
  {
    hide Isolated;
    assert Step(config, run.states[k], run.actions[k], run.states[k + 1]);
    assert RemovalPending(run.states[k + 1], id, Remove(key));
    RemovedBeforeFinish(config, run, k + 1, m, id, Remove(key));
    var e :| k + 1 < e <= m && IsOut(run.states[e].entries, Remove(key));
  }
}
