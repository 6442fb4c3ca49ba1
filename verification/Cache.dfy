/**
 * What the cache keeps and when it may use it. Parsing of `Cache-Control` directives and the
 * date arithmetic behind lifetimes and ages are given by a codec; capturing `Vary` is not.
 */
module Cache {
  import opened Wrappers
  import opened HttpTokens
  import ConnectionHeader

  /** Field names are in lower case; a present field has at least one value. */
  type Headers = h: map<string, seq<string>> | forall n :: n in h ==> h[n] != []

  function ValuesOf(h: Headers, name: string): seq<string> {
    if name in h then h[name] else []
  }

  const AUTHORIZATION := "authorization"

  datatype MaxStale = Any | Limit(seconds: nat)

  datatype Directives = Directives(
    isPublic: bool,
    noCache: bool,
    noStore: bool,
    onlyIfCached: bool,
    maxAge: Option<nat>,
    sMaxage: Option<nat>,
    maxStale: Option<MaxStale>,
    minFresh: Option<nat>,
    mustRevalidate: bool)

  /** `lifetime` and `age` also depend on the time of the call. */
  datatype Codec = Codec(
    requestDirectives: Headers -> Directives,
    responseDirectives: Headers -> Directives,
    lifetime: (Headers, nat) -> nat,
    age: (Headers, nat) -> nat)

  /** `key` is the normalised URI. */
  datatype Request = Request(verb: string, key: string, emptyBody: bool, headers: Headers)

  /** `invalidates` are the keys of same-host `Location` and `Content-Location` URIs. */
  datatype Reply = Reply(status: nat, headers: Headers, body: string, invalidates: seq<string>)

  datatype Policy = Policy(
    isCacheable: bool,
    hasAuthorization: bool,
    lookup: bool,
    storeResponse: bool,
    onlyIfCached: bool,
    maxAge: Option<nat>,
    maxStale: Option<MaxStale>,
    minFresh: Option<nat>)

  function RequestPolicy(codec: Codec, r: Request): Policy {
    var d := codec.requestDirectives(r.headers);
    var cacheable := r.verb == "GET" && r.emptyBody;
    Policy(cacheable, AUTHORIZATION in r.headers,
           cacheable && !d.noCache && (d.maxAge != Some(0) || d.maxStale.Some?),
           cacheable && !d.noStore, cacheable && d.onlyIfCached, d.maxAge, d.maxStale, d.minFresh)
  }

  // ------------------------------------------------------------------------------- Vary

  datatype VaryField = VaryField(name: string, values: seq<string>)

  type Vary = seq<VaryField>

  /** Field names listed by the elements of one value, added to `names`; `None` if one is `*` or no name. */
  function NamesIn(elements: seq<string>, names: seq<string>): Option<seq<string>>
    decreases elements
  {
    if elements == [] then Some(names)
    else
      var e := elements[0];
      if e == [] then NamesIn(elements[1..], names)
      else if e == "*" || !IsToken(e) then None
      else if Lower(e) in names then NamesIn(elements[1..], names)
      else NamesIn(elements[1..], names + [Lower(e)])
  }

  function VaryNames(values: seq<string>, names: seq<string>): Option<seq<string>>
    decreases values
  {
    if values == [] then Some(names)
    else if !Readable(values[0]) then None
    else
      match NamesIn(ConnectionHeader.Elements(values[0], []), names)
      case None => None
      case Some(more) => VaryNames(values[1..], more)
  }

  /** The request's values of the given fields. */
  function Selected(names: seq<string>, request: Headers): (vary: Vary)
    ensures |vary| == |names| && forall i :: 0 <= i < |names| ==> vary[i] == VaryField(names[i], ValuesOf(request, names[i]))
  {
    seq(|names|, i requires 0 <= i < |names| => VaryField(names[i], ValuesOf(request, names[i])))
  }

  function Capture(response: Headers, request: Headers): Option<Vary> {
    match VaryNames(ValuesOf(response, "vary"), [])
    case None => None
    case Some(names) => Some(Selected(names, request))
  }

  predicate Tracks(vary: Vary, name: string) {
    exists i :: 0 <= i < |vary| && vary[i].name == name
  }

  predicate VaryMatches(vary: Vary, request: Headers) {
    forall i :: 0 <= i < |vary| ==> vary[i].values == ValuesOf(request, vary[i].name)
  }

  function Include(vary: Vary, name: string, request: Headers): Vary {
    if vary == [] then [VaryField(name, ValuesOf(request, name))]
    else if vary[0].name == name then [VaryField(name, ValuesOf(request, name))] + vary[1..]
    else [vary[0]] + Include(vary[1..], name, request)
  }

  /** Captured fields hold the request's own values. */
  lemma CaptureMatches(response: Headers, request: Headers)
    requires Capture(response, request).Some?
    ensures VaryMatches(Capture(response, request).value, request)
  {
  }

  lemma {:induction false} IncludeMatches(vary: Vary, name: string, request: Headers)
    requires VaryMatches(vary, request)
    ensures VaryMatches(Include(vary, name, request), request) && Tracks(Include(vary, name, request), name)
  {
    var r := Include(vary, name, request);
    if vary == [] || vary[0].name == name {
      assert r[0].name == name;
    } else {
      IncludeMatches(vary[1..], name, request);
      var rest := Include(vary[1..], name, request);
      var i :| 0 <= i < |rest| && rest[i].name == name;
      assert r[i + 1].name == name;
    }
  }

  lemma TracksCons(field: VaryField, rest: Vary, n: string)
    ensures Tracks([field] + rest, n) <==> n == field.name || Tracks(rest, n)
  {
    var vary := [field] + rest;
    assert vary[0] == field;
    if Tracks(rest, n) {
      var i :| 0 <= i < |rest| && rest[i].name == n;
      assert vary[i + 1].name == n;
    }
  }

  lemma {:induction false} IncludeTracks(vary: Vary, name: string, request: Headers)
    ensures forall n :: Tracks(Include(vary, name, request), n) <==> n == name || Tracks(vary, n)
  {
    var r := Include(vary, name, request);
    if vary == [] {
      assert r[0].name == name;
    } else if vary[0].name == name {
      assert forall i :: 0 <= i < |vary| ==> r[i].name == vary[i].name;
    } else {
      IncludeTracks(vary[1..], name, request);
      var rest := Include(vary[1..], name, request);
      forall n ensures Tracks(r, n) <==> n == vary[0].name || Tracks(rest, n) {
        TracksCons(vary[0], rest, n);
      }
      forall n ensures Tracks(vary, n) <==> n == vary[0].name || Tracks(vary[1..], n) {
        assert vary == [vary[0]] + vary[1..];
        TracksCons(vary[0], vary[1..], n);
      }
    }
  }

  /** An element that makes the response unusable for selection: the star, or something that is no field name. */
  predicate Unlistable(e: string) {
    e != [] && (e == "*" || !IsToken(e))
  }

  /** A `Vary` value that cannot be read as a list of field names. */
  predicate Unusable(value: string) {
    !Readable(value) || exists e :: e in ConnectionHeader.Elements(value, []) && Unlistable(e)
  }

  /** `name` is an element of `value`, in any letter case. */
  predicate ListsName(value: string, name: string) {
    exists e :: e in ConnectionHeader.Elements(value, []) && e != [] && Lower(e) == name
  }

  predicate Distinct(names: seq<string>) {
    forall i, j :: 0 <= i < j < |names| ==> names[i] != names[j]
  }

  lemma {:induction false} NamesInIsExact(elements: seq<string>, names: seq<string>)
    ensures NamesIn(elements, names).None? <==> exists e :: e in elements && Unlistable(e)
    ensures NamesIn(elements, names).Some? ==>
              && (forall n :: n in NamesIn(elements, names).value <==> n in names || exists e :: e in elements && e != [] && Lower(e) == n)
              && (Distinct(names) ==> Distinct(NamesIn(elements, names).value))
    decreases elements
  {
    hide IsToken, Lower;
    if elements == [] {
    } else {
      var e, rest := elements[0], elements[1..];
      assert forall x :: x in elements <==> x == e || x in rest;
      if Unlistable(e) {
      } else {
        var names' := if e == [] || Lower(e) in names then names else names + [Lower(e)];
        NamesInIsExact(rest, names');
        assert NamesIn(elements, names) == NamesIn(rest, names');
        assert forall n :: n in names' <==> n in names || (e != [] && Lower(e) == n);
        hide NamesIn, Unlistable;
      }
    }
  }

  lemma {:induction false} VaryNamesIsExact(values: seq<string>, names: seq<string>)
    ensures VaryNames(values, names).None? <==> exists v :: v in values && Unusable(v)
    ensures VaryNames(values, names).Some? ==>
              && (forall n :: n in VaryNames(values, names).value <==> n in names || exists v :: v in values && ListsName(v, n))
              && (Distinct(names) ==> Distinct(VaryNames(values, names).value))
    decreases values
  {
    hide Unlistable, Lower, NamesIn, ConnectionHeader.Elements, Readable, Distinct;
    if values == [] {
    } else {
      var v, rest := values[0], values[1..];
      assert forall x :: x in values <==> x == v || x in rest;
      NamesInIsExact(ConnectionHeader.Elements(v, []), names);
      var more := NamesIn(ConnectionHeader.Elements(v, []), names);
      assert v in values && (Unusable(v) <==> !Readable(v) || more.None?);
      if more.Some? {
        VaryNamesIsExact(rest, more.value);
        assert forall n :: n in more.value <==> n in names || ListsName(v, n);
        hide Unusable, ListsName;
        forall n ensures (exists x :: x in values && ListsName(x, n)) <==> ListsName(v, n) || exists x :: x in rest && ListsName(x, n) {
        }
      }
    }
  }

  /**
   * Capturing fails exactly if a `Vary` value is unreadable, or lists the star or something
   * that is no field name; otherwise it tracks exactly the listed names in lower case, each once.
   */
  lemma CaptureIsExact(response: Headers, request: Headers)
    ensures Capture(response, request).None? <==> exists v :: v in ValuesOf(response, "vary") && Unusable(v)
    ensures Capture(response, request).Some? ==>
              var vary := Capture(response, request).value;
              && (forall n :: Tracks(vary, n) <==> exists v :: v in ValuesOf(response, "vary") && ListsName(v, n))
              && forall i, j :: 0 <= i < j < |vary| ==> vary[i].name != vary[j].name
  {
    hide VaryNames, Unusable, ListsName;
    var values := ValuesOf(response, "vary");
    VaryNamesIsExact(values, []);
    var names := VaryNames(values, []);
    if names.Some? {
      var vary := Selected(names.value, request);
      forall n ensures Tracks(vary, n) <==> n in names.value {
        if Tracks(vary, n) {
          var i :| 0 <= i < |vary| && vary[i].name == n;
          assert names.value[i] == n;
        }
        if n in names.value {
          var i :| 0 <= i < |names.value| && names.value[i] == n;
          assert vary[i].name == n;
        }
      }
    }
  }

  method CaptureNames(elements: seq<string>, known: seq<string>) returns (r: Option<seq<string>>)
    ensures r == NamesIn(elements, known)
  {
    var names := known;
    for i := 0 to |elements|
      invariant NamesIn(elements[i..], names) == NamesIn(elements, known)
    {
      var e := elements[i];
      assert elements[i..][1..] == elements[i + 1..];
      if e == [] {
        continue;
      }
      if e == "*" || !IsToken(e) {
        return None;
      }
      if Lower(e) !in names {
        names := names + [Lower(e)];
      }
    }
    return Some(names);
  }

  /** The loop over the `Vary` values and their elements. */
  method CaptureVary(response: Headers, request: Headers) returns (r: Option<Vary>)
    ensures r == Capture(response, request)
  {
    var values, names := ValuesOf(response, "vary"), [];
    for i := 0 to |values|
      invariant VaryNames(values[i..], names) == VaryNames(values, [])
    {
      assert values[i..][1..] == values[i + 1..];
      if !Readable(values[i]) {
        return None;
      }
      var more := CaptureNames(ConnectionHeader.Elements(values[i], []), names);
      if more.None? {
        return None;
      }
      names := more.value;
    }
    return Some(Selected(names, request));
  }

  // ---------------------------------------------------------------------------- entries

  datatype Entry = Entry(
    status: nat,
    headers: Headers,
    body: string,
    storedAt: nat,
    initialAge: nat,
    lifetime: nat,
    vary: Vary,
    mustValidate: bool,
    mustRevalidate: bool)

  predicate HasValidator(h: Headers) {
    "etag" in h || "last-modified" in h
  }

  predicate AllowsAuthorizedStorage(d: Directives) {
    d.isPublic || d.sMaxage.Some? || d.mustRevalidate
  }

  predicate IsStorable(codec: Codec, headers: Headers, status: nat, now: nat, authorized: bool) {
    var d := codec.responseDirectives(headers);
    && status == 200
    && "set-cookie" !in headers
    && !d.noStore
    && (authorized ==> AllowsAuthorizedStorage(d))
    && (d.noCache ==> HasValidator(headers))
    && (codec.lifetime(headers, now) != 0 || HasValidator(headers))
  }

  function NewEntry(codec: Codec, status: nat, headers: Headers, body: string, vary: Vary, now: nat): Entry {
    var d := codec.responseDirectives(headers);
    Entry(status, headers, body, now, codec.age(headers, now), codec.lifetime(headers, now), vary, d.noCache, d.mustRevalidate)
  }

  predicate MatchesRequest(e: Entry, authorized: bool, request: Headers) {
    (authorized ==> Tracks(e.vary, AUTHORIZATION)) && VaryMatches(e.vary, request)
  }

  function CurrentAge(e: Entry, now: nat): nat {
    e.initialAge + if now < e.storedAt then 0 else now - e.storedAt
  }

  function EffectiveLifetime(e: Entry, p: Policy): nat {
    if p.maxAge.Some? && p.maxAge.value < e.lifetime then p.maxAge.value else e.lifetime
  }

  predicate IsFresh(age: nat, lifetime: nat, p: Policy) {
    age < lifetime && (p.minFresh.Some? ==> age + p.minFresh.value <= lifetime)
  }

  predicate StaleIsAcceptable(e: Entry, age: nat, lifetime: nat, p: Policy) {
    if e.mustRevalidate || p.minFresh.Some? then false
    else
      match p.maxStale
      case None => false
      case Some(Any) => true
      case Some(Limit(seconds)) => (if age < lifetime then 0 else age - lifetime) <= seconds
  }

  predicate IsServable(e: Entry, p: Policy, now: nat) {
    if e.mustValidate then false
    else
      var age, lifetime := CurrentAge(e, now), EffectiveLifetime(e, p);
      IsFresh(age, lifetime, p) || StaleIsAcceptable(e, age, lifetime, p)
  }

  /** Time only makes an entry less usable, whatever the request allows. */
  lemma ServableOnlyBefore(e: Entry, p: Policy, now: nat, later: nat)
    requires now <= later && IsServable(e, p, later)
    ensures IsServable(e, p, now)
  {
    assert CurrentAge(e, now) <= CurrentAge(e, later);
  }

  predicate CanRevalidate(e: Entry, request: Headers) {
    "if-none-match" !in request && "if-modified-since" !in request && HasValidator(e.headers)
  }

  const PAYLOAD: set<string> := {"content-length", "content-encoding", "transfer-encoding"}

  /** The stored fields, updated by the validation response except for those that describe the payload. */
  function Merge304(stored: Headers, validation: Headers): Headers {
    (stored - {"age"}) + (validation - PAYLOAD)
  }

  /** The entry after a 304, and whether it may be stored again. */
  function Freshen(codec: Codec, e: Entry, validation: Headers, request: Headers, now: nat): (Entry, bool) {
    var headers := Merge304(e.headers, validation);
    match Capture(headers, request)
    case None => (NewEntry(codec, e.status, headers, e.body, [], now), false)
    case Some(captured) =>
      var vary := if Tracks(e.vary, AUTHORIZATION) then Include(captured, AUTHORIZATION, request) else captured;
      (NewEntry(codec, e.status, headers, e.body, vary, now), IsStorable(codec, headers, e.status, now, AUTHORIZATION in request))
  }

  /** The newest candidate that matches. */
  function LastMatch(candidates: seq<Entry>, authorized: bool, request: Headers): Option<Entry> {
    if candidates == [] then None
    else if MatchesRequest(candidates[|candidates| - 1], authorized, request) then Some(candidates[|candidates| - 1])
    else LastMatch(candidates[..|candidates| - 1], authorized, request)
  }

  /** Candidate `i` matches and no newer one does. */
  predicate NewestAt(candidates: seq<Entry>, authorized: bool, request: Headers, i: int) {
    && 0 <= i < |candidates| && MatchesRequest(candidates[i], authorized, request)
    && forall j :: i < j < |candidates| ==> !MatchesRequest(candidates[j], authorized, request)
  }

  lemma {:induction false} NewestIsLastMatch(candidates: seq<Entry>, authorized: bool, request: Headers, i: int)
    requires NewestAt(candidates, authorized, request, i)
    ensures LastMatch(candidates, authorized, request) == Some(candidates[i])
  {
    hide MatchesRequest;
    var n := |candidates| - 1;
    if i == n {
    } else {
      NewestIsLastMatch(candidates[..n], authorized, request, i);
    }
  }

  lemma {:induction false} NewestExists(candidates: seq<Entry>, authorized: bool, request: Headers, k: nat) returns (i: int)
    requires k < |candidates| && MatchesRequest(candidates[k], authorized, request)
    ensures NewestAt(candidates, authorized, request, i)
    decreases |candidates| - k
  {
    hide MatchesRequest;
    if NewestAt(candidates, authorized, request, k) {
      i := k;
    } else {
      var j :| k < j < |candidates| && MatchesRequest(candidates[j], authorized, request);
      i := NewestExists(candidates, authorized, request, j);
    }
  }

  lemma {:induction false} NoMatchIsNone(candidates: seq<Entry>, authorized: bool, request: Headers)
    requires forall i :: 0 <= i < |candidates| ==> !MatchesRequest(candidates[i], authorized, request)
    ensures LastMatch(candidates, authorized, request) == None
  {
    hide MatchesRequest;
    if candidates == [] {
    } else {
      NoMatchIsNone(candidates[..|candidates| - 1], authorized, request);
    }
  }

  /** The result is the newest that matches; there is none exactly if nothing matches. */
  lemma LastMatchIsNewest(candidates: seq<Entry>, authorized: bool, request: Headers)
    ensures match LastMatch(candidates, authorized, request)
            case None => forall i :: 0 <= i < |candidates| ==> !MatchesRequest(candidates[i], authorized, request)
            case Some(e) => exists i :: NewestAt(candidates, authorized, request, i) && candidates[i] == e
  {
    hide MatchesRequest, LastMatch;
    if k :| 0 <= k < |candidates| && MatchesRequest(candidates[k], authorized, request) {
      var i := NewestExists(candidates, authorized, request, k);
      NewestIsLastMatch(candidates, authorized, request, i);
    } else {
      NoMatchIsNone(candidates, authorized, request);
    }
  }

  method FindCandidate(candidates: seq<Entry>, authorized: bool, request: Headers) returns (r: Option<Entry>)
    ensures r == LastMatch(candidates, authorized, request)
    ensures r == None <==> forall i :: 0 <= i < |candidates| ==> !MatchesRequest(candidates[i], authorized, request)
    ensures r.Some? ==> exists i :: NewestAt(candidates, authorized, request, i) && candidates[i] == r.value
  {
    hide MatchesRequest;
    LastMatchIsNewest(candidates, authorized, request);
    assert candidates[..|candidates|] == candidates;
    for i := |candidates| downto 0
      invariant LastMatch(candidates, authorized, request) == LastMatch(candidates[..i], authorized, request)
    {
      if MatchesRequest(candidates[i], authorized, request) {
        assert candidates[..i + 1][|candidates[..i + 1]| - 1] == candidates[i];
        return Some(candidates[i]);
      }
      assert candidates[..i + 1][..i] == candidates[..i];
    }
    return None;
  }

  lemma PayloadFieldsAre(name: string)
    ensures name in PAYLOAD <==> name == "content-length" || name == "content-encoding" || name == "transfer-encoding"
  {
  }

  /** Field by field: a field of the 304 replaces the stored one, unless it describes the payload; a stored age goes. */
  lemma MergeIsFieldwise(stored: Headers, validation: Headers, name: string)
    ensures ValuesOf(Merge304(stored, validation), name) ==
            if name in validation && name != "content-length" && name != "content-encoding" && name != "transfer-encoding"
            then validation[name]
            else if name == "age" then [] else ValuesOf(stored, name)
  {
    PayloadFieldsAre(name);
    hide PAYLOAD;
  }
}
