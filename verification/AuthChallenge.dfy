/**
 * The parser for `WWW-Authenticate` and `Proxy-Authenticate` values. Its loops are methods,
 * each proved to compute a function that follows the text from left to right.
 */
module AuthChallenge {
  import opened Wrappers
  import opened HttpTokens

  datatype Param = Param(name: string, value: string)

  datatype Challenge = Challenge(scheme: string, token68: Option<string>, parameters: seq<Param>)

  // ------------------------------------------------------------------------- characters

  predicate IsToken68Char(c: char) {
    IsAlphanumeric(c) || c in "-._~+/"
  }

  /** Token characters without ten of the signs, and the slash. */
  lemma Token68CharsAre(c: char)
    ensures IsToken68Char(c) <==> c == '/' || (IsTokenChar(c) && c !in "!#$%&'*^`|")
  {
  }

  /** The characters with Unicode property White_Space. */
  predicate IsWhitespace(c: char) {
    || '\t' <= c <= '\r' || c == ' ' || c == '\U{85}' || c == '\U{A0}' || c == '\U{1680}'
    || '\U{2000}' <= c <= '\U{200A}' || c == '\U{2028}' || c == '\U{2029}' || c == '\U{202F}'
    || c == '\U{205F}' || c == '\U{3000}'
  }

  predicate Token68Until(s: string, k: nat)
    requires k <= |s|
  {
    (forall i :: 0 <= i < k ==> IsToken68Char(s[i])) && (forall i :: k <= i < |s| ==> s[i] == '=')
  }

  /** One or more token68 characters, then padding. */
  predicate IsToken68(s: string) {
    exists k :: 0 < k <= |s| && Token68Until(s, k)
  }

  function TrimStart(s: string): (t: string)
    ensures |t| <= |s|
  {
    if s != [] && IsWhitespace(s[0]) then TrimStart(s[1..]) else s
  }

  function TrimEnd(s: string): (t: string)
    ensures |t| <= |s|
  {
    if s != [] && IsWhitespace(s[|s| - 1]) then TrimEnd(s[..|s| - 1]) else s
  }

  function Trim(s: string): string {
    TrimEnd(TrimStart(s))
  }

  // ----------------------------------------------------------------------- the parser

  /** Where a scan stands: outside a quoted string, inside one, or right after its backslash. */
  datatype Mode = Plain | Quoted | Escaped

  function Next(mode: Mode, c: char): Mode {
    match mode
    case Escaped => Quoted
    case Quoted => if c == '\\' then Escaped else if c == '"' then Plain else Quoted
    case Plain => if c == '"' then Quoted else Plain
  }

  /** The pieces of `s` between commas outside quoted strings, `piece` being read already. */
  function Pieces(s: string, mode: Mode, piece: string): seq<string> {
    if s == [] then [piece]
    else if mode == Plain && s[0] == ',' then [piece] + Pieces(s[1..], Plain, [])
    else Pieces(s[1..], Next(mode, s[0]), piece + [s[0]])
  }

  lemma PiecesAt(value: string, i: nat, mode: Mode, piece: string)
    requires i < |value|
    ensures Pieces(value[i..], mode, piece) ==
            if mode == Plain && value[i] == ',' then [piece] + Pieces(value[i + 1..], Plain, [])
            else Pieces(value[i + 1..], Next(mode, value[i]), piece + [value[i]])
  {
    assert value[i..][0] == value[i] && value[i..][1..] == value[i + 1..];
  }

  lemma PiecesAtEnd(mode: Mode, piece: string)
    ensures Pieces([], mode, piece) == [piece]
  {
  }

  function ModeOf(inQuote: bool, escaped: bool): Mode {
    if escaped then Escaped else if inQuote then Quoted else Plain
  }

  /** The loop over character positions, slicing the pieces out of `value`. */
  method SplitTopLevelCommas(value: string) returns (out: seq<string>)
    ensures out == Pieces(value, Plain, [])
  {
    hide Pieces;
    out := [];
    var start, inQuote, escaped := 0, false, false;
    assert value[0..] == value && value[0..0] == [];
    for index := 0 to |value|
      invariant 0 <= start <= index && (escaped ==> inQuote)
      invariant out + Pieces(value[index..], ModeOf(inQuote, escaped), value[start..index]) == Pieces(value, Plain, [])
    {
      var ch := value[index];
      PiecesAt(value, index, ModeOf(inQuote, escaped), value[start..index]);
      assert value[start..index] + [ch] == value[start..index + 1];
      if escaped {
        escaped := false;
      } else if ch == '\\' && inQuote {
        escaped := true;
      } else if ch == '"' {
        inQuote := !inQuote;
      } else if ch == ',' && !inQuote {
        ghost var rest := Pieces(value[index + 1..], Plain, []);
        assert out + ([value[start..index]] + rest) == (out + [value[start..index]]) + rest;
        assert value[index + 1..index + 1] == [];
        out := out + [value[start..index]];
        start := index + 1;
      }
    }
    assert value[|value|..] == [] && value[start..|value|] == value[start..];
    PiecesAtEnd(ModeOf(inQuote, escaped), value[start..]);
    out := out + [value[start..]];
  }

  /** The content of a quoted string whose opening quote was read, and what follows it. */
  function Unquote(s: string, escaped: bool, out: string): Option<(string, string)> {
    if s == [] then None
    else if escaped then Unquote(s[1..], false, out + [s[0]])
    else if s[0] == '\\' then Unquote(s[1..], true, out)
    else if s[0] == '"' then Some((out, s[1..]))
    else Unquote(s[1..], false, out + [s[0]])
  }

  method ParseQuotedString(value: string) returns (r: Option<(string, string)>)
    requires value != []
    ensures r == Unquote(value[1..], false, [])
  {
    var out, escaped := [], false;
    for index := 1 to |value|
      invariant Unquote(value[index..], escaped, out) == Unquote(value[1..], false, [])
    {
      var ch := value[index];
      assert value[index..][1..] == value[index + 1..];
      if escaped {
        out := out + [ch];
        escaped := false;
      } else if ch == '\\' {
        escaped := true;
      } else if ch == '"' {
        return Some((out, value[index + 1..]));
      } else {
        out := out + [ch];
      }
    }
    return None;
  }

  method ScanToken68(value: string) returns (ok: bool)
    ensures ok == IsToken68(value)
  {
    var seenPadding, hasValue := false, false;
    ghost var k := 0;
    for i := 0 to |value|
      invariant 0 <= k <= i && hasValue == (k > 0) && (seenPadding <==> k < i)
      invariant forall j :: 0 <= j < k ==> IsToken68Char(value[j])
      invariant forall j :: k <= j < i ==> value[j] == '='
    {
      if value[i] == '=' {
        seenPadding := true;
      } else if IsToken68Char(value[i]) {
        if seenPadding {
          assert value[k] == '=';
          return false;
        }
        hasValue := true;
        k := i + 1;
      } else {
        return false;
      }
    }
    if hasValue {
      assert Token68Until(value, k);
    } else {
      assert value == [] || value[0] == '=';
    }
    return hasValue;
  }

  function TokenEnd(s: string): (n: nat)
    ensures n <= |s|
  {
    if s == [] || !IsTokenChar(s[0]) then 0 else 1 + TokenEnd(s[1..])
  }

  /** The longest token at the front, and the rest. */
  function ParseToken(s: string): Option<(string, string)> {
    var end := TokenEnd(s);
    if end == 0 then None else Some((s[..end], s[end..]))
  }

  function ParseParamValue(s: string): Option<(string, string)> {
    if s != [] && s[0] == '"' then Unquote(s[1..], false, []) else ParseToken(s)
  }

  function ParseParam(s: string): Option<Param> {
    match ParseToken(Trim(s))
    case None => None
    case Some((name, rest)) =>
      var rest := TrimStart(rest);
      if rest == [] || rest[0] != '=' then None
      else
        match ParseParamValue(TrimStart(rest[1..]))
        case None => None
        case Some((value, remaining)) => if Trim(remaining) == [] then Some(Param(name, value)) else None
  }

  /** The parameters among the pieces; what is not one is skipped. */
  function ParamsOf(pieces: seq<string>): seq<Param> {
    if pieces == [] then []
    else
      var tail := ParamsOf(pieces[1..]);
      match ParseParam(pieces[0])
      case None => tail
      case Some(p) => [p] + tail
  }

  function ParseRest(scheme: string, rest: string): Challenge {
    if rest == [] then Challenge(scheme, None, [])
    else if IsToken68(rest) then Challenge(scheme, Some(rest), [])
    else if '=' in rest then Challenge(scheme, None, ParamsOf(Pieces(rest, Plain, [])))
    else Challenge(scheme, None, [])
  }

  function ParseStart(s: string): Option<Challenge> {
    match ParseToken(s)
    case None => None
    case Some((scheme, rest)) =>
      if rest != [] && !IsWhitespace(rest[0]) then None
      else Some(ParseRest(scheme, Trim(rest)))
  }

  /** What the parser has: finished challenges and the one that still takes parameters. */
  datatype Progress = Progress(done: seq<Challenge>, current: Option<Challenge>)

  function Finished(p: Progress): seq<Challenge> {
    if p.current.Some? then p.done + [p.current.value] else p.done
  }

  function Take(p: Progress, piece: string): Progress {
    var part := Trim(piece);
    if part == [] then p
    else
      var parameter := ParseParam(part);
      if parameter.Some? && p.current.Some? then
        p.(current := Some(p.current.value.(parameters := p.current.value.parameters + [parameter.value])))
      else Progress(Finished(p), ParseStart(part))
  }

  function TakeAll(p: Progress, pieces: seq<string>): Progress
    decreases pieces
  {
    if pieces == [] then p else TakeAll(Take(p, pieces[0]), pieces[1..])
  }

  function Parse(value: string): seq<Challenge> {
    Finished(TakeAll(Progress([], None), Pieces(value, Plain, [])))
  }

  method ParseAuthChallengeHeader(value: string) returns (challenges: seq<Challenge>)
    ensures challenges == Parse(value)
  {
    challenges := [];
    var current: Option<Challenge> := None;
    var parts := SplitTopLevelCommas(value);
    for i := 0 to |parts|
      invariant TakeAll(Progress(challenges, current), parts[i..]) == TakeAll(Progress([], None), parts)
    {
      assert parts[i..][1..] == parts[i + 1..];
      var part := Trim(parts[i]);
      if part == [] {
        continue;
      }
      var parameter := ParseParam(part);
      if parameter.Some? && current.Some? {
        current := Some(current.value.(parameters := current.value.parameters + [parameter.value]));
        continue;
      }
      if current.Some? {
        challenges := challenges + [current.value];
      }
      current := ParseStart(part);
    }
    if current.Some? {
      challenges := challenges + [current.value];
    }
  }
}
