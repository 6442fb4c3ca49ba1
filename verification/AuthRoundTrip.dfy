/**
 * What the challenge parser reads: every rendering of a list of challenges that the grammar
 * of section 11.3 of RFC 9110 allows, in particular the canonical one.
 */
module AuthRoundTrip {
  import opened Wrappers
  import opened HttpTokens
  import opened AuthChallenge

  // -------------------------------------------------------------------------- renderings

  predicate IsBlank(s: string) {
    forall i :: 0 <= i < |s| ==> IsWhitespace(s[i])
  }

  /** `inner` is `value` between quotes: any character may be escaped, quote and backslash must be. */
  predicate QuotedAs(inner: string, value: string)
    decreases value
  {
    if value == [] then inner == []
    else
      || (|inner| > 1 && inner[0] == '\\' && inner[1] == value[0] && QuotedAs(inner[2..], value[1..]))
      || (inner != [] && inner[0] == value[0] && value[0] != '"' && value[0] != '\\' && QuotedAs(inner[1..], value[1..]))
  }

  /** How a parameter is written: blanks on both sides of the `=`, and the value as a token or quoted. */
  datatype ParamForm = AsToken(before: string, after: string) | AsQuoted(before: string, after: string, inner: string)

  predicate ParamFits(p: Param, f: ParamForm) {
    && IsToken(p.name) && IsBlank(f.before) && IsBlank(f.after)
    && match f
       case AsToken(_, _) => IsToken(p.value)
       case AsQuoted(_, _, inner) => QuotedAs(inner, p.value)
  }

  function ValueText(p: Param, f: ParamForm): string {
    if f.AsToken? then p.value else "\"" + f.inner + "\""
  }

  function ParamText(p: Param, f: ParamForm): string {
    p.name + f.before + "=" + f.after + ValueText(p, f)
  }

  /** How a challenge is written: the blanks after the scheme, and its parameters. */
  datatype ChallengeForm = ChallengeForm(gap: string, params: seq<ParamForm>)

  predicate ParamsFit(ps: seq<Param>, fs: seq<ParamForm>) {
    |ps| == |fs| && forall i :: 0 <= i < |ps| ==> ParamFits(ps[i], fs[i])
  }

  /** A token scheme, perhaps a token68, and parameters with token names. */
  predicate Fits(c: Challenge, f: ChallengeForm) {
    && IsToken(c.scheme) && (c.token68.Some? ==> IsToken68(c.token68.value))
    && f.gap != [] && IsBlank(f.gap) && ParamsFit(c.parameters, f.params)
  }

  function ParamTexts(ps: seq<Param>, fs: seq<ParamForm>): (texts: seq<string>)
    requires |ps| == |fs|
    ensures |texts| == |ps|
  {
    if ps == [] then [] else [ParamText(ps[0], fs[0])] + ParamTexts(ps[1..], fs[1..])
  }

  /** The comma-separated elements of one challenge. */
  function ChallengeTexts(c: Challenge, f: ChallengeForm): seq<string>
    requires |c.parameters| == |f.params|
  {
    if c.token68.Some? then [c.scheme + f.gap + c.token68.value] + ParamTexts(c.parameters, f.params)
    else if c.parameters == [] then [c.scheme]
    else [c.scheme + f.gap + ParamText(c.parameters[0], f.params[0])] + ParamTexts(c.parameters[1..], f.params[1..])
  }

  predicate AllFit(cs: seq<Challenge>, fs: seq<ChallengeForm>) {
    |cs| == |fs| && forall i :: 0 <= i < |cs| ==> Fits(cs[i], fs[i])
  }

  function Texts(cs: seq<Challenge>, fs: seq<ChallengeForm>): seq<string>
    requires AllFit(cs, fs)
  {
    if cs == [] then [] else ChallengeTexts(cs[0], fs[0]) + Texts(cs[1..], fs[1..])
  }

  /** `piece` is `element` with blanks around it. */
  predicate Padded(piece: string, element: string) {
    exists a, b :: 0 <= a <= b <= |piece| && IsBlank(piece[..a]) && IsBlank(piece[b..]) && element == piece[a..b]
  }

  /** The pieces are the elements, padded, in order, with blank pieces anywhere between them. */
  predicate Lists(pieces: seq<string>, elements: seq<string>)
    decreases pieces
  {
    if pieces == [] then elements == []
    else
      || (IsBlank(pieces[0]) && Lists(pieces[1..], elements))
      || (elements != [] && Padded(pieces[0], elements[0]) && Lists(pieces[1..], elements[1..]))
  }

  function JoinCommas(pieces: seq<string>): string {
    if pieces == [] then []
    else if |pieces| == 1 then pieces[0]
    else pieces[0] + "," + JoinCommas(pieces[1..])
  }

  // --------------------------------------------------------- splitting undoes joining

  function Run(mode: Mode, s: string): Mode
    decreases s
  {
    if s == [] then mode else Run(Next(mode, s[0]), s[1..])
  }

  predicate NoComma(mode: Mode, s: string)
    decreases s
  {
    s == [] || (!(mode == Plain && s[0] == ',') && NoComma(Next(mode, s[0]), s[1..]))
  }

  /** A piece as splitting finds it: no comma outside quotes, every quoted string closed. */
  predicate Balanced(s: string) {
    NoComma(Plain, s) && Run(Plain, s) == Plain
  }

  lemma {:induction false} PiecesSkip(s: string, t: string, mode: Mode, piece: string)
    requires NoComma(mode, s)
    ensures Pieces(s + t, mode, piece) == Pieces(t, Run(mode, s), piece + s)
  {
    if s == [] {
      assert s + t == t && piece + s == piece;
    } else {
      assert (s + t)[1..] == s[1..] + t;
      assert piece + [s[0]] + s[1..] == piece + s;
      PiecesSkip(s[1..], t, Next(mode, s[0]), piece + [s[0]]);
    }
  }

  /** Splitting loses nothing: the pieces with commas between them are the value. */
  lemma {:induction false} PiecesRejoin(s: string, mode: Mode, piece: string)
    ensures Pieces(s, mode, piece) != [] && JoinCommas(Pieces(s, mode, piece)) == piece + s
    decreases s
  {
    if s == [] {
    } else {
      if mode == Plain && s[0] == ',' {
        PiecesRejoin(s[1..], Plain, []);
        var rest := Pieces(s[1..], Plain, []);
        assert ([piece] + rest)[1..] == rest;
        assert piece + "," + s[1..] == piece + s;
      } else {
        PiecesRejoin(s[1..], Next(mode, s[0]), piece + [s[0]]);
        assert piece + [s[0]] + s[1..] == piece + s;
      }
    }
  }

  /** And it finds any list of balanced pieces again. */
  lemma {:induction false} SplitJoin(ps: seq<string>)
    requires ps != [] && forall i :: 0 <= i < |ps| ==> Balanced(ps[i])
    ensures Pieces(JoinCommas(ps), Plain, []) == ps
  {
    hide NoComma, Run;
    assert [] + ps[0] == ps[0];
    if |ps| == 1 {
      assert ps[0] + [] == ps[0];
      PiecesSkip(ps[0], [], Plain, []);
    } else {
      var rest := JoinCommas(ps[1..]);
      assert JoinCommas(ps) == ps[0] + ("," + rest);
      PiecesSkip(ps[0], "," + rest, Plain, []);
      assert ("," + rest)[1..] == rest;
      SplitJoin(ps[1..]);
    }
  }

  lemma {:induction false} RunConcat(mode: Mode, s: string, t: string)
    ensures Run(mode, s + t) == Run(Run(mode, s), t)
    ensures NoComma(mode, s) && NoComma(Run(mode, s), t) ==> NoComma(mode, s + t)
    decreases s
  {
    if s == [] {
      assert s + t == t;
    } else {
      assert (s + t)[1..] == s[1..] + t;
      RunConcat(Next(mode, s[0]), s[1..], t);
    }
  }

  lemma BalancedConcat(s: string, t: string)
    requires Balanced(s) && Balanced(t)
    ensures Balanced(s + t)
  {
    RunConcat(Plain, s, t);
  }

  lemma {:induction false} PlainIsBalanced(s: string)
    requires forall i :: 0 <= i < |s| ==> s[i] != ',' && s[i] != '"'
    ensures Balanced(s)
  {
    if s == [] {
    } else {
      PlainIsBalanced(s[1..]);
    }
  }

  lemma {:induction false} InnerStaysQuoted(inner: string, value: string)
    requires QuotedAs(inner, value)
    ensures Run(Quoted, inner) == Quoted && NoComma(Quoted, inner)
    decreases value
  {
    if value == [] {
    } else {
      if |inner| > 1 && inner[0] == '\\' && inner[1] == value[0] && QuotedAs(inner[2..], value[1..]) {
        InnerStaysQuoted(inner[2..], value[1..]);
        assert inner[1..][1..] == inner[2..];
      } else {
        InnerStaysQuoted(inner[1..], value[1..]);
      }
    }
  }

  lemma CharFacts(c: char)
    ensures IsTokenChar(c) ==> c != ',' && c != '"' && c != '=' && !IsWhitespace(c)
    ensures IsToken68Char(c) ==> c != ',' && c != '"' && c != '=' && !IsWhitespace(c)
    ensures IsWhitespace(c) ==> c != ',' && c != '"' && c != '=' && !IsTokenChar(c)
    ensures !IsTokenChar('=') && !IsWhitespace('=') && !IsWhitespace('"')
  {
  }

  lemma BlankIsBalanced(s: string)
    requires IsBlank(s)
    ensures Balanced(s)
  {
    hide IsTokenChar, IsWhitespace;
    forall i | 0 <= i < |s| ensures s[i] != ',' && s[i] != '"' {
      CharFacts(s[i]);
    }
    PlainIsBalanced(s);
  }

  /** An element: balanced, and neither starting nor ending in whitespace. */
  predicate Element(s: string) {
    s != [] && Balanced(s) && !IsWhitespace(s[0]) && !IsWhitespace(s[|s| - 1])
  }

  predicate Elements(ss: seq<string>) {
    forall i :: 0 <= i < |ss| ==> Element(ss[i])
  }

  lemma ElementIsNotEmpty(s: string)
    requires Element(s)
    ensures s != []
  {
  }

  lemma TokenIsElement(s: string)
    requires IsToken(s)
    ensures Element(s) && s[0] != '='
  {
    hide IsTokenChar, IsWhitespace;
    forall i | 0 <= i < |s| ensures s[i] != ',' && s[i] != '"' && s[i] != '=' && !IsWhitespace(s[i]) {
      CharFacts(s[i]);
    }
    PlainIsBalanced(s);
  }

  lemma Token68IsElement(s: string)
    requires IsToken68(s)
    ensures Element(s) && s[0] != '='
  {
    hide IsToken68Char, IsWhitespace;
    var k :| 0 < k <= |s| && Token68Until(s, k);
    CharFacts(' ');
    forall i | 0 <= i < |s| ensures s[i] != ',' && s[i] != '"' && !IsWhitespace(s[i]) {
      CharFacts(s[i]);
    }
    CharFacts(s[0]);
    PlainIsBalanced(s);
  }

  lemma ClosingQuote()
    ensures Run(Quoted, "\"") == Plain && NoComma(Quoted, "\"")
  {
    assert "\""[1..] == [];
  }

  lemma QuotedIsBalanced(inner: string, value: string)
    requires QuotedAs(inner, value)
    ensures Balanced("\"" + inner + "\"")
  {
    hide QuotedAs;
    var quoted := "\"" + inner + "\"";
    InnerStaysQuoted(inner, value);
    ClosingQuote();
    RunConcat(Quoted, inner, "\"");
    assert quoted[0] == '"' && quoted[1..] == inner + "\"";
    assert Run(Plain, quoted) == Run(Quoted, quoted[1..]);
    assert NoComma(Plain, quoted) == NoComma(Quoted, quoted[1..]);
  }

  lemma QuotedIsElement(inner: string, value: string)
    requires QuotedAs(inner, value)
    ensures Element("\"" + inner + "\"")
  {
    hide IsWhitespace, Balanced, QuotedAs;
    QuotedIsBalanced(inner, value);
    CharFacts('"');
  }

  /** What stands between two elements may be blank or an equals sign. */
  lemma Between(s: string, middle: string, t: string)
    requires Element(s) && Element(t) && Balanced(middle)
    ensures Element(s + middle + t)
  {
    hide IsWhitespace, NoComma, Run;
    BalancedConcat(s, middle);
    BalancedConcat(s + middle, t);
  }

  lemma ValueIsElement(p: Param, f: ParamForm)
    requires ParamFits(p, f)
    ensures Element(ValueText(p, f))
  {
    hide IsToken, Element;
    if f.AsToken? {
      TokenIsElement(p.value);
    } else {
      QuotedIsElement(f.inner, p.value);
    }
  }

  lemma ParamIsElement(p: Param, f: ParamForm)
    requires ParamFits(p, f)
    ensures Element(ParamText(p, f)) && ParamText(p, f)[0] != '='
  {
    hide IsToken, IsBlank, Balanced, IsWhitespace, ValueText;
    TokenIsElement(p.name);
    ValueIsElement(p, f);
    BlankIsBalanced(f.before);
    BlankIsBalanced(f.after);
    PlainIsBalanced("=");
    BalancedConcat(f.before, "=");
    BalancedConcat(f.before + "=", f.after);
    Between(p.name, f.before + "=" + f.after, ValueText(p, f));
    assert ParamText(p, f) == p.name + (f.before + "=" + f.after) + ValueText(p, f);
  }

  // ------------------------------------------------------------------- trimming

  lemma {:induction false} TrimStartBlank(l: string, t: string)
    requires IsBlank(l) && (t != [] ==> !IsWhitespace(t[0]))
    ensures TrimStart(l + t) == t
  {
    hide IsWhitespace;
    if l == [] {
      assert l + t == t;
    } else {
      assert (l + t)[1..] == l[1..] + t;
      TrimStartBlank(l[1..], t);
    }
  }

  lemma {:induction false} TrimEndBlank(t: string, r: string)
    requires IsBlank(r) && (t != [] ==> !IsWhitespace(t[|t| - 1]))
    ensures TrimEnd(t + r) == t
    decreases |r|
  {
    hide IsWhitespace;
    if r == [] {
      assert t + r == t;
    } else {
      assert (t + r)[..|t + r| - 1] == t + r[..|r| - 1];
      TrimEndBlank(t, r[..|r| - 1]);
    }
  }

  lemma TrimAround(l: string, t: string, r: string)
    requires IsBlank(l) && IsBlank(r) && Element(t)
    ensures Trim(l + t + r) == t
  {
    hide IsWhitespace, Balanced;
    assert l + t + r == l + (t + r);
    TrimStartBlank(l, t + r);
    TrimEndBlank(t, r);
  }

  lemma TrimElement(t: string)
    requires Element(t)
    ensures Trim(t) == t
  {
    hide Element;
    assert [] + t + [] == t;
    TrimAround([], t, []);
  }

  lemma TrimBlank(s: string)
    requires IsBlank(s)
    ensures Trim(s) == []
  {
    hide IsWhitespace;
    assert s + [] == s;
    TrimStartBlank(s, []);
  }

  lemma TrimPadded(piece: string, element: string)
    requires Padded(piece, element) && Element(element)
    ensures Trim(piece) == element && Balanced(piece)
  {
    hide IsWhitespace, NoComma, Run, IsBlank;
    var a, b :| 0 <= a <= b <= |piece| && IsBlank(piece[..a]) && IsBlank(piece[b..]) && element == piece[a..b];
    assert piece == piece[..a] + element + piece[b..];
    TrimAround(piece[..a], element, piece[b..]);
    BlankIsBalanced(piece[..a]);
    BlankIsBalanced(piece[b..]);
    BalancedConcat(piece[..a], element);
    BalancedConcat(piece[..a] + element, piece[b..]);
  }

  // ----------------------------------------------------------- each element parses back

  lemma {:induction false} TokenEndIs(s: string, t: string)
    requires IsToken(s) && (t != [] ==> !IsTokenChar(t[0]))
    ensures TokenEnd(s + t) == |s|
  {
    hide IsTokenChar;
    assert (s + t)[1..] == s[1..] + t;
    assert IsTokenChar(s[0]);
    if |s| == 1 {
      assert s[1..] + t == t;
    } else {
      TokenEndIs(s[1..], t);
    }
  }

  lemma ParseTokenIs(s: string, t: string)
    requires IsToken(s) && (t != [] ==> !IsTokenChar(t[0]))
    ensures ParseToken(s + t) == Some((s, t))
  {
    TokenEndIs(s, t);
    assert (s + t)[..|s|] == s && (s + t)[|s|..] == t;
  }

  /** Unquoting undoes every way of quoting. */
  lemma {:induction false} UnquoteQuoted(inner: string, value: string, rest: string, out: string)
    requires QuotedAs(inner, value)
    ensures Unquote(inner + ("\"" + rest), false, out) == Some((out + value, rest))
    decreases value
  {
    var tail := "\"" + rest;
    var s := inner + tail;
    if value == [] {
      assert s == tail && tail[1..] == rest;
      assert out + [] == out;
    } else {
      assert out + [value[0]] + value[1..] == out + value;
      if |inner| > 1 && inner[0] == '\\' && inner[1] == value[0] && QuotedAs(inner[2..], value[1..]) {
        UnquoteQuoted(inner[2..], value[1..], rest, out + [value[0]]);
        assert s[1..][1..] == inner[2..] + tail;
      } else {
        UnquoteQuoted(inner[1..], value[1..], rest, out + [value[0]]);
        assert s[1..] == inner[1..] + tail;
      }
    }
  }

  lemma ValueParsesBack(p: Param, f: ParamForm)
    requires ParamFits(p, f)
    ensures ParseParamValue(ValueText(p, f)) == Some((p.value, ""))
  {
    hide IsTokenChar, Unquote, QuotedAs, TokenEnd;
    var text := ValueText(p, f);
    if f.AsToken? {
      CharFacts(p.value[0]);
      assert p.value + "" == p.value;
      ParseTokenIs(p.value, "");
    } else {
      assert text[1..] == f.inner + ("\"" + "");
      UnquoteQuoted(f.inner, p.value, "", "");
      assert "" + p.value == p.value;
    }
  }

  lemma ValueStart(s: string)
    requires Element(s)
    ensures s != [] && !IsWhitespace(s[0])
  {
  }

  lemma BlankStart(l: string, t: string)
    requires IsBlank(l) && t != [] && !IsTokenChar(t[0])
    ensures !IsTokenChar((l + t)[0])
  {
    hide IsTokenChar, IsWhitespace;
    if l != [] {
      CharFacts(l[0]);
    }
  }

  /** A parameter, however written, parses back. */
  lemma ParamParsesBack(p: Param, f: ParamForm)
    requires ParamFits(p, f)
    ensures ParseParam(ParamText(p, f)) == Some(p)
  {
    hide IsToken, IsWhitespace, Element, ValueText, ParseParamValue, ParseToken, Trim, TrimStart, IsTokenChar;
    var value := ValueText(p, f);
    ParamIsElement(p, f);
    TrimElement(ParamText(p, f));
    ValueIsElement(p, f);
    ValueStart(value);
    CharFacts(' ');
    var rest := "=" + f.after + value;
    assert ParamText(p, f) == p.name + (f.before + rest);
    BlankStart(f.before, rest);
    ParseTokenIs(p.name, f.before + rest);
    TrimStartBlank(f.before, rest);
    assert rest[1..] == f.after + value;
    TrimStartBlank(f.after, value);
    ValueParsesBack(p, f);
    TrimBlank("");
  }

  /** After the equals sign of a parameter comes something that is not padding. */
  lemma ParamIsNoToken68(p: Param, f: ParamForm)
    requires ParamFits(p, f)
    ensures !IsToken68(ParamText(p, f)) && '=' in ParamText(p, f)
  {
    hide IsTokenChar, IsWhitespace, QuotedAs, IsToken68Char;
    var text := ParamText(p, f);
    var e := |p.name| + |f.before|;
    var v := e + 1 + |f.after|;
    assert text[e] == '=';
    assert text[v] == ValueText(p, f)[0];
    CharFacts(text[v]);
    forall k | 0 < k <= |text| ensures !Token68Until(text, k) {
      CharFacts('=');
      if k > e {
        assert !IsToken68Char(text[e]);
      } else {
        assert text[v] != '=';
      }
    }
  }

  lemma SoleParam(p: Param, f: ParamForm)
    requires ParamFits(p, f)
    ensures ParamsOf(Pieces(ParamText(p, f), Plain, [])) == [p]
  {
    hide IsToken, IsWhitespace, QuotedAs, Run, NoComma, ParseParam, ParamText, IsBlank;
    var text := ParamText(p, f);
    ParamIsElement(p, f);
    ParamParsesBack(p, f);
    PiecesSkip(text, [], Plain, []);
    assert text + [] == text && [] + text == text;
    assert Pieces(text, Plain, []) == [text];
    assert [text][1..] == [];
    assert ParamsOf([text][1..]) == [];
  }

  lemma AloneParsesBack(scheme: string)
    requires IsToken(scheme)
    ensures Element(scheme) && ParseParam(scheme).None? && ParseStart(scheme) == Some(ParseRest(scheme, []))
  {
    hide IsTokenChar, Element, TokenEnd, ParseRest, IsToken, Trim;
    TokenIsElement(scheme);
    TrimElement(scheme);
    assert scheme + [] == scheme;
    ParseTokenIs(scheme, []);
    TrimBlank("");
  }

  /** A scheme followed by something that does not start with `=` is no parameter, and starts a challenge. */
  lemma FollowedParsesBack(scheme: string, gap: string, t: string)
    requires IsToken(scheme) && gap != [] && IsBlank(gap) && Element(t) && t[0] != '='
    ensures var s := scheme + gap + t;
            Element(s) && ParseParam(s).None? && ParseStart(s) == Some(ParseRest(scheme, t))
  {
    hide IsTokenChar, IsWhitespace, Balanced, TokenEnd, ParseRest, IsToken, TrimStart, Trim, ParseParamValue;
    var s := scheme + gap + t;
    TokenIsElement(scheme);
    BlankIsBalanced(gap);
    Between(scheme, gap, t);
    TrimElement(s);
    assert s == scheme + (gap + t);
    CharFacts(gap[0]);
    ParseTokenIs(scheme, gap + t);
    TrimStartBlank(gap, t);
    assert gap + t + [] == gap + t;
    TrimAround(gap, t, []);
  }

  /** The challenge after its first element: its later parameters are still to come. */
  function Opened(c: Challenge): Challenge {
    if c.token68.Some? || c.parameters == [] then c.(parameters := []) else c.(parameters := c.parameters[..1])
  }

  lemma StartParsesBack(c: Challenge, f: ChallengeForm)
    requires Fits(c, f)
    ensures var first := ChallengeTexts(c, f)[0];
            Element(first) && ParseParam(first).None? && ParseStart(first) == Some(Opened(c))
  {
    hide Element, IsToken, IsToken68, ParseParam, ParseStart, ParamsOf, Pieces, ParamText, ParamFits, IsBlank;
    if c.token68.Some? {
      Token68IsElement(c.token68.value);
      ElementIsNotEmpty(c.token68.value);
      FollowedParsesBack(c.scheme, f.gap, c.token68.value);
    } else if c.parameters == [] {
      AloneParsesBack(c.scheme);
    } else {
      var p, g := c.parameters[0], f.params[0];
      SoleParam(p, g);
      ParamIsNoToken68(p, g);
      ParamIsElement(p, g);
      ElementIsNotEmpty(ParamText(p, g));
      FollowedParsesBack(c.scheme, f.gap, ParamText(p, g));
      assert c.parameters[..1] == [p];
    }
  }

  // ------------------------------------------------------------------- the round trip

  lemma {:induction false} TakeAllConcat(p: Progress, a: seq<string>, b: seq<string>)
    ensures TakeAll(p, a + b) == TakeAll(TakeAll(p, a), b)
    decreases a
  {
    if a == [] {
      assert a + b == b;
    } else {
      assert (a + b)[1..] == a[1..] + b;
      TakeAllConcat(Take(p, a[0]), a[1..], b);
    }
  }

  /** Padding and blank pieces make no difference, and every piece is one as splitting finds it. */
  lemma {:induction false} TakeAllListed(p: Progress, pieces: seq<string>, elements: seq<string>)
    requires Lists(pieces, elements) && Elements(elements)
    ensures TakeAll(p, pieces) == TakeAll(p, elements)
    ensures forall i :: 0 <= i < |pieces| ==> Balanced(pieces[i])
    decreases pieces
  {
    hide Element, ParseParam, ParseStart, Trim, Finished, Padded, IsBlank, Balanced;
    if pieces == [] {
    } else {
      if IsBlank(pieces[0]) && Lists(pieces[1..], elements) {
        TrimBlank(pieces[0]);
        BlankIsBalanced(pieces[0]);
        TakeAllListed(p, pieces[1..], elements);
      } else {
        TrimPadded(pieces[0], elements[0]);
        TrimElement(elements[0]);
        assert Take(p, pieces[0]) == Take(p, elements[0]);
        TakeAllListed(Take(p, elements[0]), pieces[1..], elements[1..]);
      }
    }
  }

  lemma {:induction false} ParamsAppend(p: Progress, ps: seq<Param>, fs: seq<ParamForm>)
    requires p.current.Some? && ParamsFit(ps, fs)
    ensures TakeAll(p, ParamTexts(ps, fs)) == p.(current := Some(p.current.value.(parameters := p.current.value.parameters + ps)))
    ensures Elements(ParamTexts(ps, fs))
    decreases ps
  {
    hide Element, ParseParam, ParseStart, ParamText, Trim, ParamFits;
    var c := p.current.value;
    if ps == [] {
      assert c.parameters + ps == c.parameters;
    } else {
      var text := ParamText(ps[0], fs[0]);
      ParamIsElement(ps[0], fs[0]);
      ParamParsesBack(ps[0], fs[0]);
      TrimElement(text);
      ElementIsNotEmpty(text);
      var p' := Take(p, text);
      assert p' == p.(current := Some(c.(parameters := c.parameters + [ps[0]])));
      ParamsAppend(p', ps[1..], fs[1..]);
      assert c.parameters + [ps[0]] + ps[1..] == c.parameters + ps;
    }
  }

  lemma NoParams()
    ensures ParamTexts([], []) == []
  {
  }

  /** The elements of one challenge close what was open and leave the challenge open. */
  lemma ChallengeParsesBack(p: Progress, c: Challenge, f: ChallengeForm)
    requires Fits(c, f)
    ensures TakeAll(p, ChallengeTexts(c, f)) == Progress(Finished(p), Some(c))
    ensures Elements(ChallengeTexts(c, f))
  {
    hide Element, ParseParam, ParseStart, Trim, ParamText, ParamTexts, Finished, IsToken, IsToken68, ParamFits, IsBlank;
    var es := ChallengeTexts(c, f);
    StartParsesBack(c, f);
    TrimElement(es[0]);
    ElementIsNotEmpty(es[0]);
    var p' := Take(p, es[0]);
    var whole := c.token68.Some? || c.parameters == [];
    var later := if whole then c.parameters else c.parameters[1..];
    var forms := if whole then f.params else f.params[1..];
    assert es[1..] == ParamTexts(later, forms) by { NoParams(); }
    assert p' == Progress(Finished(p), Some(Opened(c)));
    ParamsAppend(p', later, forms);
    assert Opened(c).parameters + later == c.parameters;
    assert forall i :: 0 < i < |es| ==> es[i] == es[1..][i - 1];
  }

  lemma FormsMatch(c: Challenge, f: ChallengeForm)
    requires Fits(c, f)
    ensures |c.parameters| == |f.params|
  {
  }

  lemma {:induction false} ChallengesParseBack(p: Progress, cs: seq<Challenge>, fs: seq<ChallengeForm>)
    requires AllFit(cs, fs)
    ensures Finished(TakeAll(p, Texts(cs, fs))) == Finished(p) + cs && Elements(Texts(cs, fs))
    decreases cs
  {
    hide Element, Fits, ChallengeTexts, Take;
    if cs == [] {
    } else {
      FormsMatch(cs[0], fs[0]);
      ChallengeParsesBack(p, cs[0], fs[0]);
      var p' := Progress(Finished(p), Some(cs[0]));
      TakeAllConcat(p, ChallengeTexts(cs[0], fs[0]), Texts(cs[1..], fs[1..]));
      ChallengesParseBack(p', cs[1..], fs[1..]);
      assert Finished(p) + [cs[0]] + cs[1..] == Finished(p) + cs;
    }
  }

  /**
   * However a list of challenges is written: values as tokens or quoted, with any escapes,
   * blanks around elements, equals signs and after schemes, empty list elements, the parser
   * reads the list.
   */
  lemma EveryRenderingParses(cs: seq<Challenge>, fs: seq<ChallengeForm>, pieces: seq<string>)
    requires AllFit(cs, fs) && pieces != [] && Lists(pieces, Texts(cs, fs))
    ensures Parse(JoinCommas(pieces)) == cs
  {
    hide Element, Fits, Take, TakeAll, Texts, JoinCommas, Lists, Balanced, Pieces;
    var p := Progress([], None);
    ChallengesParseBack(p, cs, fs);
    TakeAllListed(p, pieces, Texts(cs, fs));
    SplitJoin(pieces);
    assert [] + cs == cs;
  }

  // ------------------------------------------------------------- the canonical rendering

  function Escape(value: string): string {
    if value == [] then []
    else if value[0] == '"' || value[0] == '\\' then ['\\', value[0]] + Escape(value[1..])
    else [value[0]] + Escape(value[1..])
  }

  lemma {:induction false} EscapeQuotes(value: string)
    ensures QuotedAs(Escape(value), value)
  {
    if value == [] {
    } else {
      EscapeQuotes(value[1..]);
      var e := Escape(value);
      if value[0] == '"' || value[0] == '\\' {
        assert e[2..] == Escape(value[1..]);
      } else {
        assert e[1..] == Escape(value[1..]);
      }
    }
  }

  function CanonicalForm(c: Challenge): ChallengeForm {
    ChallengeForm(" ", seq(|c.parameters|, i requires 0 <= i < |c.parameters| => AsQuoted("", "", Escape(c.parameters[i].value))))
  }

  function CanonicalForms(cs: seq<Challenge>): seq<ChallengeForm> {
    seq(|cs|, i requires 0 <= i < |cs| => CanonicalForm(cs[i]))
  }

  /** A token scheme, perhaps a token68, and parameters with token names and any values. */
  predicate WellFormed(c: Challenge) {
    && IsToken(c.scheme)
    && (c.token68.Some? ==> IsToken68(c.token68.value))
    && (forall i :: 0 <= i < |c.parameters| ==> IsToken(c.parameters[i].name))
  }

  predicate AllWellFormed(cs: seq<Challenge>) {
    forall i :: 0 <= i < |cs| ==> WellFormed(cs[i])
  }

  lemma CanonicalFits(c: Challenge)
    requires WellFormed(c)
    ensures Fits(c, CanonicalForm(c))
  {
    hide IsToken, IsToken68, QuotedAs, Escape;
    var f := CanonicalForm(c);
    forall i | 0 <= i < |c.parameters| ensures ParamFits(c.parameters[i], f.params[i]) {
      EscapeQuotes(c.parameters[i].value);
    }
  }

  lemma AllCanonicalFit(cs: seq<Challenge>)
    requires AllWellFormed(cs)
    ensures AllFit(cs, CanonicalForms(cs))
  {
    hide WellFormed, Fits, CanonicalForm;
    forall i | 0 <= i < |cs| ensures Fits(cs[i], CanonicalForms(cs)[i]) {
      CanonicalFits(cs[i]);
    }
  }

  /** One space after each comma; the empty list is the empty string. */
  function Spaced(elements: seq<string>): seq<string> {
    if elements == [] then [] else [" " + elements[0]] + Spaced(elements[1..])
  }

  function Separated(elements: seq<string>): seq<string> {
    if elements == [] then [""] else [elements[0]] + Spaced(elements[1..])
  }

  lemma PadLeft(l: string, e: string)
    requires l == "" || l == " "
    ensures Padded(l + e, e)
  {
    var piece := l + e;
    assert piece[..|l|] == l && piece[|piece|..] == [] && piece[|l|..|piece|] == e;
  }

  lemma {:induction false} SpacedLists(elements: seq<string>)
    ensures Lists(Spaced(elements), elements)
  {
    hide IsBlank;
    if elements == [] {
    } else {
      SpacedLists(elements[1..]);
      var s := Spaced(elements);
      PadLeft(" ", elements[0]);
      assert s[1..] == Spaced(elements[1..]);
    }
  }

  lemma SeparatedLists(elements: seq<string>)
    ensures Lists(Separated(elements), elements)
  {
    hide Padded;
    var s := Separated(elements);
    if elements == [] {
      assert s[1..] == [];
    } else {
      SpacedLists(elements[1..]);
      assert "" + elements[0] == elements[0];
      PadLeft("", elements[0]);
      assert s[1..] == Spaced(elements[1..]);
    }
  }

  /** Every value as an escaped quoted string, elements joined by comma and space. */
  function Print(cs: seq<Challenge>): string
    requires AllWellFormed(cs)
  {
    AllCanonicalFit(cs);
    JoinCommas(Separated(Texts(cs, CanonicalForms(cs))))
  }

  /** Parsing the canonical print of any well-formed list of challenges gives the list back. */
  lemma RoundTrip(cs: seq<Challenge>)
    requires AllWellFormed(cs)
    ensures Parse(Print(cs)) == cs
  {
    hide WellFormed, Fits, Parse, JoinCommas, Texts, Lists;
    AllCanonicalFit(cs);
    var fs := CanonicalForms(cs);
    SeparatedLists(Texts(cs, fs));
    EveryRenderingParses(cs, fs, Separated(Texts(cs, fs)));
  }

  // --------------------------------------------- every parse is well formed, hence stable

  lemma {:induction false} TokenPrefix(s: string)
    ensures forall i :: 0 <= i < TokenEnd(s) ==> IsTokenChar(s[i])
  {
    hide IsTokenChar;
    if s == [] || !IsTokenChar(s[0]) {
    } else {
      TokenPrefix(s[1..]);
    }
  }

  lemma ParsedTokenIsToken(s: string)
    requires ParseToken(s).Some?
    ensures IsToken(ParseToken(s).value.0)
  {
    TokenPrefix(s);
  }

  lemma ParsedParamIsWellFormed(s: string)
    requires ParseParam(s).Some?
    ensures IsToken(ParseParam(s).value.name)
  {
    hide IsToken, ParseToken, Trim, TrimStart, Unquote;
    ParsedTokenIsToken(Trim(s));
  }

  lemma {:induction false} ParsedParamsAreWellFormed(pieces: seq<string>)
    ensures forall i :: 0 <= i < |ParamsOf(pieces)| ==> IsToken(ParamsOf(pieces)[i].name)
  {
    hide ParseParam;
    if pieces == [] {
    } else {
      ParsedParamsAreWellFormed(pieces[1..]);
      if ParseParam(pieces[0]).Some? {
        ParsedParamIsWellFormed(pieces[0]);
      }
    }
  }

  lemma ParsedStartIsWellFormed(s: string)
    requires ParseStart(s).Some?
    ensures WellFormed(ParseStart(s).value)
  {
    hide IsToken, IsToken68, ParseToken, Trim, ParamsOf, Pieces;
    ParsedTokenIsToken(s);
    var rest := Trim(ParseToken(s).value.1);
    ParsedParamsAreWellFormed(Pieces(rest, Plain, []));
  }

  lemma TakeKeepsWellFormed(p: Progress, piece: string)
    requires AllWellFormed(Finished(p))
    ensures AllWellFormed(Finished(Take(p, piece)))
  {
    hide ParseParam, ParseStart, Trim, IsToken, IsToken68;
    var part := Trim(piece);
    if part != [] {
      if p.current.Some? {
        assert p.current.value == Finished(p)[|p.done|];
        assert forall i :: 0 <= i < |p.done| ==> p.done[i] == Finished(p)[i];
      }
      if ParseParam(part).Some? && p.current.Some? {
        ParsedParamIsWellFormed(part);
      } else if ParseStart(part).Some? {
        ParsedStartIsWellFormed(part);
      }
    }
  }

  lemma {:induction false} TakeAllKeepsWellFormed(p: Progress, pieces: seq<string>)
    requires AllWellFormed(Finished(p))
    ensures AllWellFormed(Finished(TakeAll(p, pieces)))
    decreases pieces
  {
    hide Take, Finished, AllWellFormed;
    if pieces == [] {
    } else {
      TakeKeepsWellFormed(p, pieces[0]);
      TakeAllKeepsWellFormed(Take(p, pieces[0]), pieces[1..]);
    }
  }

  /** Whatever the header says, printing what was parsed and parsing again changes nothing. */
  lemma ParseIsStable(value: string)
    ensures AllWellFormed(Parse(value)) && Parse(Print(Parse(value))) == Parse(value)
  {
    TakeAllKeepsWellFormed(Progress([], None), Pieces(value, Plain, []));
    RoundTrip(Parse(value));
  }
}
